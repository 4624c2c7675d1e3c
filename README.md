# BLE Manager core, in Dafny

This project models the core of BLE Manager, an Android app (Kotlin package
`net.satka.bleManager`). The app connects to a Bluetooth Low Energy device
and builds a control panel from the device's GATT database. Each
characteristic that carries a control descriptor becomes a control. The
descriptor's JSON configuration names the control's type, bounds and order.
The model covers:

- **Value codecs** (`ble/wrappers`):
  - integers of 8 to 64 bits, signed and unsigned, little- and big-endian;
  - boolean and RGBA colour;
  - time of day, and date-time as epoch seconds in 4 or 8 bytes;
  - the float codecs' wrong-length guard and a one-byte-per-character text codec.
- **Descriptor configuration**: the thirteen-field record, the empty-input guard of `parseJson`, the unsigned-field (de)serialisers, and the split of a descriptor into a configuration or an error text.
- **The control builder** `setupCharacteristicModel`: the closed table from type tag to control kind and bounds. It also covers the controls' `write` and `setByteValue`.
- **The service and device aggregates**: name, order, sorting, routing of read values, and construction from a discovered GATT database.
- **The descriptor-UUID mask**: `compareUUIDWithMask`, and the settings screen's `validateUUID`, `formatUUID` and save-time padding.
- **The write queue** `BLEWriteQueue`: FIFO dispatch with one write in flight.
- **The GATT status texts** `getGattErrorMessage`.
- **The connection service** `BluetoothDeviceConnectionService`. It is modelled as a state machine that steps once per transport callback or public call:
  - connect and MTU negotiation;
  - service discovery;
  - the three load queues and their drains: descriptor reads, CCCD writes (notifications) and characteristic reads;
  - writes.

## How it is modelled

The modules follow the source files.

- **Pure code becomes functions with lemmas.** This covers the wrappers, the configuration parser, the control table, `compareUUIDWithMask`, `getGattErrorMessage` and the settings-screen helpers.
- **Code that changes state becomes classes with `modifies` clauses.**
  - `CharacteristicModel.Characteristic` holds a control's value.
  - `ServiceModel.ServiceModel` and `DeviceModel.DeviceModel` route values to it.
  - `WriteQueue.BleWriteQueue` has its queue and in-flight flag.
  - `ConnectionService.BluetoothDeviceConnectionService` has its flags, its three queues and its two accumulators.
- **Each stateful method is proved against a function of the old state.** For example, `ReadNextCharacteristic` ensures `Current() == CharacteristicDrain(old(Current()))`. The properties of those functions are proved as lemmas in `ConnectionProperties` and `WriteQueue`.
- **The transport is an oracle.** The Android GATT client becomes `GattClient`. It answers each request from a sequence of booleans fixed in advance. Write answers come from a sequence too: each is a status code, or the message of an `IllegalArgumentException` thrown by `writeCharacteristic`. Every request it receives is logged.
- **Callbacks are logged.** The service's outgoing callbacks (`onError`, `onWorkStarted`, `onDescriptorsRead`, …) form a ghost log of `Notice`s.
- **Kotlin's map and sort operations are written out.** `associate` and `filterValues` become association lists (`Associations`). Each pair of stable `sortedBy` calls becomes one insertion sort by (primary, secondary, position) (`Sorting`).

Integer widths are explicit:
- a `Byte` is 0..255;
- Kotlin's truncating conversions (`toUByte`, `toShort`, …) are `CharacteristicModel.Narrow`;
- the JVM's 6-bit masking of `Long` shift counts is modelled in the time and date-time decoders, where a ninth byte lands on bit 0 again, and in the date-time encoder, where a ninth byte repeats the first.

Where the repository's written description and its code differ, this model
follows the code:
- `[0x2C, 0x01]` read big-endian as a `uint16` is 0x2C01 = 11265 (`IntegerWrappers.UInt16Example`).
- The colour codec has no big-endian variant.
- Integer bounds are narrowed before they are clamped, so a configured minimum can end up above the maximum (`CharacteristicModel.NarrowedBoundsCanCross`).

## Model

| member | source | states |
|---|---|---|
| Bytes.LeValueOfEncode | AndroidApp/app/src/main/java/net/satka/bleManager/ble/wrappers/UInt64Wrapper.kt:27-38 | reading back the w little-endian bytes of v gives v modulo 256^w |
| Bytes.UnsignedRoundTrip | AndroidApp/app/src/main/java/net/satka/bleManager/ble/wrappers/UInt32Wrapper.kt:9-29 | for 0 <= v < 256^w, decoding the w-byte little-endian encoding gives v back |
| Bytes.SignedRoundTrip | AndroidApp/app/src/main/java/net/satka/bleManager/ble/wrappers/SInt32Wrapper.kt:9-29 | for v in the w-byte two's-complement range, the signed reading of its encoding is v |
| Bytes.ReverseReverse | AndroidApp/app/src/main/java/net/satka/bleManager/ble/wrappers/UInt16Wrapper.kt:28-35 | `reversedArray` is its own inverse, so a big-endian round trip reduces to a little-endian one |
| Bytes.FoldLanesShort | AndroidApp/app/src/main/java/net/satka/bleManager/ble/wrappers/TimeWrapper.kt:7-9 | for up to 8 bytes, the OR-fold at shift 8·i lays the bytes out in order, padded with zero bytes |
| Bytes.FoldValueShort | AndroidApp/app/src/main/java/net/satka/bleManager/ble/wrappers/DateTime64Wrapper.kt:18-20 | fewer than 8 bytes fold to their non-negative little-endian value; exactly 8 fold to the signed 64-bit word |
| Bytes.FoldNinthByte | AndroidApp/app/src/main/java/net/satka/bleManager/ble/wrappers/DateTime64Wrapper.kt:18-20 | because `Long shl` masks the shift to 6 bits, a ninth byte is ORed into bit 0 again: [1,0,0,0,0,0,0,0,2] folds to 3 |
| IntegerWrappers.BoundsMatchWidth | AndroidApp/app/src/main/java/net/satka/bleManager/ble/wrappers/UInt8Wrapper.kt:4-7 | MIN_VALUE and MAX_VALUE of every integer wrapper are exactly the unsigned or two's-complement range of its width |
| IntegerWrappers.FromBytes | AndroidApp/app/src/main/java/net/satka/bleManager/ble/wrappers/SInt16Wrapper.kt:9-18 | decoding never leaves the Kotlin type's range, whatever the input length |
| IntegerWrappers.ToBytes | AndroidApp/app/src/main/java/net/satka/bleManager/ble/wrappers/SInt16Wrapper.kt:20-25 | encoding yields exactly the width's number of bytes |
| IntegerWrappers.RoundTrip | AndroidApp/app/src/main/java/net/satka/bleManager/ble/wrappers/UInt64Wrapper.kt:9-38 | decode(encode(v)) == v for every value of the Kotlin type, for all eight integer wrappers |
| IntegerWrappers.EncodeOfDecode | AndroidApp/app/src/main/java/net/satka/bleManager/ble/wrappers/SInt64Wrapper.kt:9-38 | encode(decode(s)) == s for every input of exactly the width |
| IntegerWrappers.EmptyDecodesToZero | AndroidApp/app/src/main/java/net/satka/bleManager/ble/wrappers/UInt8Wrapper.kt:10-12 | empty input decodes to 0, in both byte orders |
| IntegerWrappers.DecodeReadsPrefix | AndroidApp/app/src/main/java/net/satka/bleManager/ble/wrappers/UInt32Wrapper.kt:14-19 | only the first `width` bytes are read; the result is their unsigned or two's-complement little-endian value |
| IntegerWrappers.ShortInputIsNonNegative | AndroidApp/app/src/main/java/net/satka/bleManager/ble/wrappers/SInt32Wrapper.kt:15-17 | fewer bytes than the width decode to their unsigned value below 256^n, with no sign extension |
| IntegerWrappers.OneByteKinds | AndroidApp/app/src/main/java/net/satka/bleManager/ble/wrappers/UInt8Wrapper.kt:9-30 | one-byte kinds read the first byte little-endian and the last byte big-endian; both encodings are [v mod 256] |
| IntegerWrappers.RoundTripBE | AndroidApp/app/src/main/java/net/satka/bleManager/ble/wrappers/UInt16Wrapper.kt:28-35 | the big-endian wrappers round-trip both ways: value to bytes to value, and width-long bytes to value to bytes |
| IntegerWrappers.UInt16Example | AndroidApp/app/src/main/java/net/satka/bleManager/ble/wrappers/UInt16Wrapper.kt:9-35 | [0x2C, 0x01] is 300 little-endian and 11265 big-endian |
| BooleanWrapper.FromBytes | AndroidApp/app/src/main/java/net/satka/bleManager/ble/wrappers/BooleanWrapper.kt:4-10 | true exactly when some byte is non-zero (so empty input is false) |
| BooleanWrapper.ToBytes | AndroidApp/app/src/main/java/net/satka/bleManager/ble/wrappers/BooleanWrapper.kt:12-14 | one byte, non-zero exactly for true |
| BooleanWrapper.RoundTrip | AndroidApp/app/src/main/java/net/satka/bleManager/ble/wrappers/BooleanWrapper.kt:4-14 | decode(encode(b)) == b; true is [1] and false is [0] |
| ColorWrapper.FromBytes | AndroidApp/app/src/main/java/net/satka/bleManager/ble/wrappers/ColorWrapper.kt:7-18 | empty input is opaque black; bytes 0..3 are R, G, B, A, with absent G and B read as 0 and absent A as 255 |
| ColorWrapper.ToBytes | AndroidApp/app/src/main/java/net/satka/bleManager/ble/wrappers/ColorWrapper.kt:20-29 | exactly four bytes |
| ColorWrapper.RoundTrip | AndroidApp/app/src/main/java/net/satka/bleManager/ble/wrappers/ColorWrapper.kt:6-30 | decode(encode(c)) == c; encode(decode(s)) == s for 4-byte s; bytes after the fourth are ignored |
| TimeWrapper.FromBytes | AndroidApp/app/src/main/java/net/satka/bleManager/ble/wrappers/TimeWrapper.kt:6-19 | the folded value when it is a second of the day (0 <= v < 86400), midnight otherwise |
| TimeWrapper.ToBytes | AndroidApp/app/src/main/java/net/satka/bleManager/ble/wrappers/TimeWrapper.kt:21-27 | exactly four bytes |
| TimeWrapper.DecodeShort | AndroidApp/app/src/main/java/net/satka/bleManager/ble/wrappers/TimeWrapper.kt:7-14 | up to 8 bytes decode to their little-endian value when it is in 0..86399, and to 0 otherwise |
| TimeWrapper.RoundTrip | AndroidApp/app/src/main/java/net/satka/bleManager/ble/wrappers/TimeWrapper.kt:6-38 | decode(encode(t)) == t for every whole-second time of day, in both byte orders |
| TimeWrapper.EncodeOfDecode | AndroidApp/app/src/main/java/net/satka/bleManager/ble/wrappers/TimeWrapper.kt:6-27 | a 4-byte input re-encodes to itself exactly when its value is below 86400 |
| DateTimeWrappers.FromBytes | AndroidApp/app/src/main/java/net/satka/bleManager/ble/wrappers/DateTime64Wrapper.kt:17-27 | the folded epoch second when it lies in the supported range, the 1970 epoch otherwise; never an error |
| DateTimeWrappers.ToBytesN | AndroidApp/app/src/main/java/net/satka/bleManager/ble/wrappers/DateTime64Wrapper.kt:9-15 | `toBytes(value, n)` yields exactly n bytes: the little-endian bytes for n <= 8 |
| DateTimeWrappers.ToBytesNCycles | AndroidApp/app/src/main/java/net/satka/bleManager/ble/wrappers/DateTime64Wrapper.kt:9-15 | byte i of `toBytes(value, n)` is byte i mod 8 of the value, because `shr` masks its count to 6 bits |
| DateTimeWrappers.ToBytesNWraps | AndroidApp/app/src/main/java/net/satka/bleManager/ble/wrappers/DateTime64Wrapper.kt:9-15 | 4 and 8 bytes are the plain encodings; a ninth byte repeats the first |
| DateTimeWrappers.DecodeShort | AndroidApp/app/src/main/java/net/satka/bleManager/ble/wrappers/DateTime64Wrapper.kt:17-27 | under 8 bytes decode with zero high bytes; up to 4 bytes never hit the fallback |
| DateTimeWrappers.RoundTrip64 | AndroidApp/app/src/main/java/net/satka/bleManager/ble/wrappers/DateTime64Wrapper.kt:29-42 | decode(encode(d)) == d for every whole-second date-time, in both byte orders |
| DateTimeWrappers.RoundTrip32 | AndroidApp/app/src/main/java/net/satka/bleManager/ble/wrappers/DateTime32Wrapper.kt:5-19 | the 4-byte encoding keeps d mod 2^32, so the round trip is exact iff 0 <= d < 2^32; big-endian agrees |
| DateTimeWrappers.RoundTrip32Wraps | AndroidApp/app/src/main/java/net/satka/bleManager/ble/wrappers/DateTime32Wrapper.kt:5-9 | one second before the epoch comes back as 2^32 - 1 |
| FloatWrappers.FromBytes | AndroidApp/app/src/main/java/net/satka/bleManager/ble/wrappers/FloatWrapper.kt:9-16 | an input that is not exactly the width long reads as NaN; any result fits the width |
| FloatWrappers.ToBytes | AndroidApp/app/src/main/java/net/satka/bleManager/ble/wrappers/FloatWrapper.kt:18-26 | the bit pattern is written as exactly `width` bytes |
| FloatWrappers.RoundTrip | AndroidApp/app/src/main/java/net/satka/bleManager/ble/wrappers/FloatWrapper.kt:9-37 | bit patterns (not IEEE values) survive encode and decode in both byte orders; wrong-length big-endian input is NaN too |
| StringWrapper.FromBytes | AndroidApp/app/src/main/java/net/satka/bleManager/ble/wrappers/StringWrapper.kt:4-6 | one character per byte, with the byte's code |
| StringWrapper.ToBytes | AndroidApp/app/src/main/java/net/satka/bleManager/ble/wrappers/StringWrapper.kt:8-10 | one byte per character, the low byte of its code |
| StringWrapper.RoundTrip | AndroidApp/app/src/main/java/net/satka/bleManager/ble/wrappers/StringWrapper.kt:4-10 | bytes survive decode then encode; a text survives encode then decode iff every character fits in a byte |
| Codecs.Decode | AndroidApp/app/src/main/java/net/satka/bleManager/ble/wrappers/CharacteristicValueWrapper.kt:3-6 | whatever the bytes, every codec decodes to a value it admits |
| Codecs.BigEndianIsReversedLittleEndian | AndroidApp/app/src/main/java/net/satka/bleManager/ble/wrappers/SInt64Wrapper.kt:41-48 | every big-endian codec is its little-endian twin with the bytes reversed on input and output |
| Codecs.RoundTrip | AndroidApp/app/src/main/java/net/satka/bleManager/ble/wrappers/CharacteristicValueWrapper.kt:3-6 | for each codec, states exactly when decode(encode(v)) == v, with float values taken as bit patterns |
| DescriptorConfigurationParser.ParseJson | AndroidApp/app/src/main/java/net/satka/bleManager/ble/configuration/DescriptorConfigurationParser.kt:26-38 | null, blank or all-NUL text fails with "Descriptor value is empty"; otherwise the decoder's configuration or its exception message |
| DescriptorConfigurationParser.GuardShape | AndroidApp/app/src/main/java/net/satka/bleManager/ble/configuration/DescriptorConfigurationParser.kt:27-29 | "", NULs and whitespace are each rejected; a text that mixes NUL and a space goes to the decoder |
| DescriptorConfigurationParser.ParseUnsigned | AndroidApp/app/src/main/java/net/satka/bleManager/ble/configuration/DescriptorConfigurationParser.kt:40-58 | a parsed unsigned field is an optional '+' and decimal digits of any script whose value is below its type's limit |
| DescriptorConfigurationParser.ToDecimal | AndroidApp/app/src/main/java/net/satka/bleManager/ble/configuration/DescriptorConfigurationParser.kt:40-58 | serialisation yields a non-empty string of decimal digits |
| DescriptorConfigurationParser.DigitsOfDecimal | AndroidApp/app/src/main/java/net/satka/bleManager/ble/configuration/DescriptorConfigurationParser.kt:40-58 | the decimal digits written read back as the value, with no leading zero |
| DescriptorConfigurationParser.UnsignedRoundTrip | AndroidApp/app/src/main/java/net/satka/bleManager/ble/configuration/DescriptorConfigurationParser.kt:40-58 | the ULong/UInt deserialiser inverts the serialiser, with or without a leading '+' |
| DescriptorConfigurationParser.RejectsMalformed | AndroidApp/app/src/main/java/net/satka/bleManager/ble/configuration/DescriptorConfigurationParser.kt:40-58 | "", "+", "-1" and the limit itself are refused |
| DescriptorConfigurationParser.ReadsOtherScriptDigits | AndroidApp/app/src/main/java/net/satka/bleManager/ble/configuration/DescriptorConfigurationParser.kt:45-57 | `toULong`/`toUInt` read Arabic-Indic and fullwidth digits: "١٢" and "+１２" both give 12 |
| DecimalDigits.OtherScriptDigits | AndroidApp/app/src/main/java/net/satka/bleManager/ble/configuration/DescriptorConfigurationParser.kt:46 | `Character.digit` gives Arabic-Indic and fullwidth one and two the values 1 and 2 |
| DescriptorValueModel.Create | AndroidApp/app/src/main/java/net/satka/bleManager/ble/models/DescriptorValueModel.kt:6-18 | UUIDs and bytes are stored unchanged; at most one of configuration and errorText is set: a parsed configuration leaves errorText null, a parse error sets its message and leaves the configuration null; neither is set when the decoder yields null or the exception has no message |
| DescriptorValueModel.EmptyDescriptorReportsWhy | AndroidApp/app/src/main/java/net/satka/bleManager/ble/models/DescriptorValueModel.kt:12-18 | an empty descriptor text gives no configuration and the "Descriptor value is empty" error |
| CharacteristicModel.Narrow | AndroidApp/app/src/main/java/net/satka/bleManager/ble/models/CharacteristicModel.kt:896-903 | Kotlin's truncating conversion lands in the target type's range |
| CharacteristicModel.NarrowKeepsInRange | AndroidApp/app/src/main/java/net/satka/bleManager/ble/models/CharacteristicModel.kt:896-903 | narrowing keeps in-range values and equals decoding the value's low bytes |
| CharacteristicModel.IntegerBounds | AndroidApp/app/src/main/java/net/satka/bleManager/ble/models/CharacteristicModel.kt:889-905 | bounds always lie in the codec's range; an in-range configured bound is kept; an absent one takes the default |
| CharacteristicModel.BuiltBoundsInRange | AndroidApp/app/src/main/java/net/satka/bleManager/ble/models/CharacteristicModel.kt:889-1680 | every integer field and slider the table builds has both bounds in range |
| CharacteristicModel.NarrowedBoundsCanCross | AndroidApp/app/src/main/java/net/satka/bleManager/ble/models/CharacteristicModel.kt:889-905 | uint8 with minInt -10 and maxInt 999 gets min 246 and max 231 |
| CharacteristicModel.MaxBytesClamped | AndroidApp/app/src/main/java/net/satka/bleManager/ble/models/CharacteristicModel.kt:831-834 | maxBytes lies in 0..512; it is 512 when absent and the configured value when that is in range |
| CharacteristicModel.SliderDefaults | AndroidApp/app/src/main/java/net/satka/bleManager/ble/models/CharacteristicModel.kt:1497-1518 | an unconfigured integer slider runs 0..100 in steps of 1, with a 300 ms debounce |
| CharacteristicModel.Setup | AndroidApp/app/src/main/java/net/satka/bleManager/ble/models/CharacteristicModel.kt:777-1719 | no descriptor gives no control; an Error control has order -1 and is disabled; any other has the configured order, or 0 |
| CharacteristicModel.DisabledRule | AndroidApp/app/src/main/java/net/satka/bleManager/ble/models/CharacteristicModel.kt:785-823 | disabled = !writable \|\| configured flag, except that the three read-only text views use only the configured flag |
| CharacteristicModel.ErrorTexts | AndroidApp/app/src/main/java/net/satka/bleManager/ble/models/CharacteristicModel.kt:1704-1714 | no tag gives "Invalid Descriptor Configuration" with the error text; an unknown tag gives "Unknown Type: " and the lower-cased tag (lower-casing as `Lower` does); nothing else is an Error |
| CharacteristicModel.TableIsClosed | AndroidApp/app/src/main/java/net/satka/bleManager/ble/models/CharacteristicModel.kt:788-1702 | only the known tags select an arm, and no arm builds an Error control |
| CharacteristicModel.TagIsCaseInsensitive | AndroidApp/app/src/main/java/net/satka/bleManager/ble/models/CharacteristicModel.kt:788 | tags that lower-case alike (as `Lower` does) build the same control |
| CharacteristicModel.KindForIgnoresTagField | AndroidApp/app/src/main/java/net/satka/bleManager/ble/models/CharacteristicModel.kt:788-1702 | an arm reads the configuration but never its type field |
| CharacteristicModel.KelvinSignSelectsCheckbox | AndroidApp/app/src/main/java/net/satka/bleManager/ble/models/CharacteristicModel.kt:788-876 | lower-casing is not ASCII-only: "CHEC" followed by the Kelvin sign selects the checkbox |
| CharacteristicModel.SharedCodecs | AndroidApp/app/src/main/java/net/satka/bleManager/ble/models/CharacteristicModel.kt:1292-1405 | date32 and datetime32 share one codec, as do date64 and datetime64; a button uses the uint8 codec |
| CharacteristicModel.RepeatedWriteIsIgnored | AndroidApp/app/src/main/java/net/satka/bleManager/ble/models/CharacteristicModel.kt:67-73 | writing the value already held has no effect |
| CharacteristicModel.ErrorNeverWrites | AndroidApp/app/src/main/java/net/satka/bleManager/ble/models/CharacteristicModel.kt:756-774 | an Error control never writes |
| CharacteristicModel.Characteristic.Write | AndroidApp/app/src/main/java/net/satka/bleManager/ble/models/CharacteristicModel.kt:67-73 | an enabled, changed write stores the value and sends its encoding once; any other write changes nothing and sends nothing |
| CharacteristicModel.Characteristic.SetByteValue | AndroidApp/app/src/main/java/net/satka/bleManager/ble/models/CharacteristicModel.kt:75-77 | the value becomes the decoding of the bytes, whatever the disabled flag; an Error control is unchanged |
| ServiceModel.WritableMask | AndroidApp/app/src/main/java/net/satka/bleManager/ble/models/ServiceModel.kt:51-53 | writable iff not read-only and one of the WRITE, WRITE_NO_RESPONSE or SIGNED_WRITE bits (mask 0x4C) is set |
| ServiceModel.DescriptorFor | AndroidApp/app/src/main/java/net/satka/bleManager/ble/models/ServiceModel.kt:49 | the first descriptor value for this service and characteristic; None iff there is none |
| ServiceModel.ServiceControlsWellFormed | AndroidApp/app/src/main/java/net/satka/bleManager/ble/models/ServiceModel.kt:45-56 | the controls map has distinct keys; each control is stored under its own UUID and built for one of the service's characteristics |
| ServiceModel.ServiceControlsPresent | AndroidApp/app/src/main/java/net/satka/bleManager/ble/models/ServiceModel.kt:45-56 | a UUID has a control iff the last characteristic with that UUID has a descriptor value |
| ServiceModel.DescribedIsPresent | AndroidApp/app/src/main/java/net/satka/bleManager/ble/models/ServiceModel.kt:45-56 | a characteristic whose UUID is unique in the service and which has a descriptor value gets a control |
| ServiceModel.ServiceControlsEmpty | AndroidApp/app/src/main/java/net/satka/bleManager/ble/models/ServiceModel.kt:55-65 | the service gets no model exactly when none of its characteristics has a descriptor value |
| ServiceModel.ServiceControlsInOrder | AndroidApp/app/src/main/java/net/satka/bleManager/ble/models/ServiceModel.kt:45-56 | with distinct characteristic UUIDs nothing merges: the map is the filtered entry list, in GATT order |
| ServiceModel.FirstServiceNameWins | AndroidApp/app/src/main/java/net/satka/bleManager/ble/models/ServiceModel.kt:12-22 | the first ServiceName control sets the order, and its text (when read) sets the name; unread, the name is the default |
| ServiceModel.NameWithoutServiceName | AndroidApp/app/src/main/java/net/satka/bleManager/ble/models/ServiceModel.kt:12-22 | without a ServiceName control, the name is the UUID's first 8 hex digits and the order is 0 |
| ServiceModel.GetCharacteristicsSorted | AndroidApp/app/src/main/java/net/satka/bleManager/ble/models/ServiceModel.kt:30-32 | every control is listed exactly once, ordered by order and then by UUID |
| ServiceModel.ServiceModel.SetCharacteristicValue | AndroidApp/app/src/main/java/net/satka/bleManager/ble/models/ServiceModel.kt:24-28 | only the control with the matching UUID decodes the bytes; every other control keeps its value |
| ServiceModel.SetupServiceModel | AndroidApp/app/src/main/java/net/satka/bleManager/ble/models/ServiceModel.kt:35-66 | null iff no control was built; otherwise a new, well-formed model holding exactly the associated controls, each forwarding its writes with the service UUID |
| DeviceModel.DeviceModel.GetService | AndroidApp/app/src/main/java/net/satka/bleManager/ble/models/DeviceModel.kt:22-24 | the service with that UUID, or None exactly when there is none |
| DeviceModel.GetServiceFindsEach | AndroidApp/app/src/main/java/net/satka/bleManager/ble/models/DeviceModel.kt:22-24 | every service of the map is found under its own UUID |
| DeviceModel.GetServicesPermutation | AndroidApp/app/src/main/java/net/satka/bleManager/ble/models/DeviceModel.kt:18-20 | getServices lists each service of the map, and nothing else |
| DeviceModel.GetServicesOrdered | AndroidApp/app/src/main/java/net/satka/bleManager/ble/models/DeviceModel.kt:18-20 | getServices is ordered by order and, within one order, by name |
| DeviceModel.GetServicesStable | AndroidApp/app/src/main/java/net/satka/bleManager/ble/models/DeviceModel.kt:18-20 | services with equal order and name keep the map's order |
| DeviceModel.DeviceModel.SetCharacteristicValue | AndroidApp/app/src/main/java/net/satka/bleManager/ble/models/DeviceModel.kt:8-12 | only the addressed control of the addressed service changes; an unknown service changes nothing |
| DeviceModel.DeviceModel.SetCharacteristicValues | AndroidApp/app/src/main/java/net/satka/bleManager/ble/models/DeviceModel.kt:14-16 | each control ends as the updates, applied in list order, leave it |
| DeviceModel.LastUpdateFor | AndroidApp/app/src/main/java/net/satka/bleManager/ble/models/DeviceModel.kt:14-16 | the bytes of the last update addressed to a characteristic; no later update exists for it |
| DeviceModel.LastUpdateWins | AndroidApp/app/src/main/java/net/satka/bleManager/ble/models/DeviceModel.kt:14-16 | after a batch, each control holds the decoding of its last update; a control with none keeps its value |
| DeviceModel.DeviceControlsLookup | AndroidApp/app/src/main/java/net/satka/bleManager/ble/models/DeviceModel.kt:27-44 | a UUID is in the device map iff the last discovered service with that UUID has a control, and then it holds those controls |
| DeviceModel.SetupDeviceModel | AndroidApp/app/src/main/java/net/satka/bleManager/ble/models/DeviceModel.kt:27-44 | a new, well-formed device model whose map is exactly the non-null service models; all control objects are new and unset |
| DeviceModel.SetupServiceModels | AndroidApp/app/src/main/java/net/satka/bleManager/ble/models/DeviceModel.kt:33-38 | one pair per discovered service; its model matches the service's controls; models share no objects |
| Associations.AssociateLookup | AndroidApp/app/src/main/java/net/satka/bleManager/ble/models/DeviceModel.kt:33-38 | `associate` keeps the last value given for each key |
| Associations.AssociateKeys | AndroidApp/app/src/main/java/net/satka/bleManager/ble/models/ServiceModel.kt:45-56 | `associate`'s keys are distinct, in first-occurrence order |
| Associations.FilterAssociateSpec | AndroidApp/app/src/main/java/net/satka/bleManager/ble/models/ServiceModel.kt:45-56 | `associate` then `filterValues { != null }` gives distinct keys, each paired with a value given for it |
| Associations.LookupFilterSome | AndroidApp/app/src/main/java/net/satka/bleManager/ble/models/DeviceModel.kt:33-43 | after `filterValues { != null }` a key maps to its value when that is non-null, and is absent otherwise |
| Sorting.SortByIsStableSort | AndroidApp/app/src/main/java/net/satka/bleManager/ble/models/ServiceModel.kt:30-32 | two stable sorts give a permutation ordered by (primary, secondary) that keeps input order on ties |
| Comparers.CompareUuidWithMask | AndroidApp/app/src/main/java/net/satka/bleManager/utils/Comparers.kt:6-15 | a null mask never matches; a match needs a mask of exactly 32 characters |
| Comparers.MatchesDigitwise | AndroidApp/app/src/main/java/net/satka/bleManager/utils/Comparers.kt:6-15 | for masks over hex digits and '#': a match iff the mask has 32 characters and each one is '#' or the UUID's digit, ignoring case |
| Comparers.AllWildcardsMatchEverything | AndroidApp/app/src/main/java/net/satka/bleManager/utils/Comparers.kt:8-11 | 32 '#' characters match every UUID |
| Comparers.WildcardFreeMaskSelectsOne | AndroidApp/app/src/main/java/net/satka/bleManager/utils/Comparers.kt:6-15 | a mask without '#' matches at most one UUID |
| Uuids.ToStringShape | AndroidApp/app/src/main/java/net/satka/bleManager/utils/Comparers.kt:10 | removing the dashes from `UUID.toString()` leaves its 32 lower-case hex digits; the dashes are at 8, 13, 18 and 23 |
| Uuids.ToStringInjective | AndroidApp/app/src/main/java/net/satka/bleManager/utils/Comparers.kt:10 | distinct UUIDs print differently |
| Uuids.KeyInjective | AndroidApp/app/src/main/java/net/satka/bleManager/ble/models/ServiceModel.kt:30-32 | `UUID.compareTo`'s key is injective, so ordering by UUID is total |
| DeviceSettings.Sanitize | AndroidApp/app/src/main/java/net/satka/bleManager/ui/DeviceSettingsActivity.kt:101 | keeps only decimal digits of any script, a-f, A-F and '#', and is never longer than its input |
| DeviceSettings.SanitizeDropsDashes | AndroidApp/app/src/main/java/net/satka/bleManager/ui/DeviceSettingsActivity.kt:101 | on text made of kept characters and dashes, sanitizing removes exactly the dashes |
| DeviceSettings.KeptCharacters | AndroidApp/app/src/main/java/net/satka/bleManager/ui/DeviceSettingsActivity.kt:101 | every hex digit and '#' survives the filter; a dash does not |
| DeviceSettings.FormatKeepsWhatValidationRefuses | AndroidApp/app/src/main/java/net/satka/bleManager/ui/DeviceSettingsActivity.kt:99-115 | the filter keeps an Arabic-Indic digit that `validateUUID` refuses: "١-a" sanitizes to "١a", which is invalid |
| DeviceSettings.PadEnd | AndroidApp/app/src/main/java/net/satka/bleManager/ui/DeviceSettingsActivity.kt:101 | `padEnd` keeps the input as a prefix, never truncates, and fills only with the pad character |
| DeviceSettings.FormatUuid | AndroidApp/app/src/main/java/net/satka/bleManager/ui/DeviceSettingsActivity.kt:99-110 | the StringBuilder loop yields the padded, sanitized input with dashes after indices 7, 11, 15 and 19 |
| DeviceSettings.GroupedAt | AndroidApp/app/src/main/java/net/satka/bleManager/ui/DeviceSettingsActivity.kt:102-109 | each character lands after the dashes before it, and a dash follows each group end |
| DeviceSettings.FormatDropsOnlyDashes | AndroidApp/app/src/main/java/net/satka/bleManager/ui/DeviceSettingsActivity.kt:99-110 | removing the dashes from the formatted text gives back the padded, sanitized input |
| DeviceSettings.FormatsPrintedUuid | AndroidApp/app/src/main/java/net/satka/bleManager/ui/DeviceSettingsActivity.kt:99-110 | a pasted `UUID.toString()` is reformatted to itself |
| DeviceSettings.SavedMask | AndroidApp/app/src/main/java/net/satka/bleManager/ui/DeviceSettingsActivity.kt:46-51 | a valid input is stored as a 32-character mask over hex digits and '#' |
| DeviceSettings.SavedMaskMatches | AndroidApp/app/src/main/java/net/satka/bleManager/ui/DeviceSettingsActivity.kt:46-51 | a saved mask matches a UUID iff each typed character is '#' or that UUID digit, ignoring case |
| WriteQueue.PumpRound | AndroidApp/app/src/main/java/net/satka/bleManager/utils/BLEWriteQueue.kt:16-28 | a dispatch round hands requests over from the head with the transport's answers, and stops at the first acceptance or when the queue is empty |
| WriteQueue.PumpTakesHead | AndroidApp/app/src/main/java/net/satka/bleManager/utils/BLEWriteQueue.kt:19-22 | the requests dispatched are a prefix of the queue, in queue order |
| WriteQueue.PumpOneAtATime | AndroidApp/app/src/main/java/net/satka/bleManager/utils/BLEWriteQueue.kt:16-28 | a round keeps at most one write outstanding; it leaves one in flight iff some request was accepted |
| WriteQueue.AtMostOneOutstanding | AndroidApp/app/src/main/java/net/satka/bleManager/utils/BLEWriteQueue.kt:8-22 | between two requests after an accepted one, a completion always occurs |
| WriteQueue.BusyUntilCompleted | AndroidApp/app/src/main/java/net/satka/bleManager/utils/BLEWriteQueue.kt:17-22 | after an accepted request the queue is busy until a completion arrives |
| WriteQueue.RequestsOfSnoc | AndroidApp/app/src/main/java/net/satka/bleManager/utils/BLEWriteQueue.kt:19-22 | the dispatched-request log grows by exactly the request of a new Requested event |
| WriteQueue.Link.RequestWrite | AndroidApp/app/src/main/java/net/satka/bleManager/utils/BLEWriteQueue.kt:6 | the transport answers with its next oracle answer and records the request |
| WriteQueue.BleWriteQueue.ProcessNextWrite | AndroidApp/app/src/main/java/net/satka/bleManager/utils/BLEWriteQueue.kt:16-28 | while in flight, nothing happens; otherwise one round is dispatched, the sent prefix leaves the queue and the invariant is kept |
| WriteQueue.BleWriteQueue.EnqueueWrite | AndroidApp/app/src/main/java/net/satka/bleManager/utils/BLEWriteQueue.kt:30-33 | appends at the tail; when idle, the request is dispatched at once |
| WriteQueue.BleWriteQueue.OnWriteComplete | AndroidApp/app/src/main/java/net/satka/bleManager/utils/BLEWriteQueue.kt:35-38 | logs the completion, clears in-flight whatever the outcome, and dispatches the next round |
| WriteQueueThreads.UnsynchronisedRace | AndroidApp/app/src/main/java/net/satka/bleManager/utils/BLEWriteQueue.kt:16-38 | run unsynchronised on two threads, a completion and an enqueue can both pass the guard and put two accepted writes in flight |
| WriteQueueThreads.SerialisedCalls | AndroidApp/app/src/main/java/net/satka/bleManager/utils/BLEWriteQueue.kt:16-38 | the same two calls, run one after the other, keep one write in flight and leave the new request queued |
| BluetoothService.MessageFor | AndroidApp/app/src/main/java/net/satka/bleManager/ble/services/BluetoothService.kt:19-39 | the message listed for a status, or None iff the status is unlisted |
| BluetoothService.MessageDeterminesStatus | AndroidApp/app/src/main/java/net/satka/bleManager/ble/services/BluetoothService.kt:18-41 | the message determines the status: reading it back gives the status, for every Int |
| BluetoothService.MessagesAreDistinct | AndroidApp/app/src/main/java/net/satka/bleManager/ble/services/BluetoothService.kt:18-41 | distinct statuses get distinct messages, including the seven app codes -1..-7 |
| BluetoothService.UnnamedMessage | AndroidApp/app/src/main/java/net/satka/bleManager/ble/services/BluetoothService.kt:40 | a status outside the table gives "Unknown GATT Error (status: N)" |
| BluetoothService.MessageExamples | AndroidApp/app/src/main/java/net/satka/bleManager/ble/services/BluetoothService.kt:20-40 | 0 is "GATT Success"; 0x1234 and -8 give the unknown-status text with their decimal value |
| Gatt.FindService | AndroidApp/app/src/main/java/net/satka/bleManager/ble/services/BluetoothDeviceConnectionService.kt:503 | `getService`: a service with that UUID, or None iff there is none |
| Gatt.FindCharacteristic | AndroidApp/app/src/main/java/net/satka/bleManager/ble/services/BluetoothDeviceConnectionService.kt:503 | `getCharacteristic`: a characteristic with that UUID, or None iff there is none |
| Gatt.FindDescriptor | AndroidApp/app/src/main/java/net/satka/bleManager/ble/services/BluetoothDeviceConnectionService.kt:316-317 | `getDescriptor`: a descriptor with that UUID, or None iff there is none |
| Connection.FirstMatch | AndroidApp/app/src/main/java/net/satka/bleManager/ble/services/BluetoothDeviceConnectionService.kt:363-370 | the descriptor loop stops at the first descriptor matching the mask, or runs to the end |
| ConnectionProperties.CharacteristicEntriesMembers | AndroidApp/app/src/main/java/net/satka/bleManager/ble/services/BluetoothDeviceConnectionService.kt:362-371 | one service's queue entries are exactly its characteristics' first matching descriptors, at most one each |
| ConnectionProperties.LoadEntriesMembers | AndroidApp/app/src/main/java/net/satka/bleManager/ble/services/BluetoothDeviceConnectionService.kt:360-373 | the descriptor queue gains, for every characteristic of every service, its first matching descriptor, and nothing else |
| ConnectionProperties.TriedStopsAtFirstAcceptance | AndroidApp/app/src/main/java/net/satka/bleManager/ble/services/BluetoothDeviceConnectionService.kt:375-418 | a drain issues requests until the first accepted one, or until the queue is empty |
| ConnectionProperties.CharacteristicDrainClosedForm | AndroidApp/app/src/main/java/net/satka/bleManager/ble/services/BluetoothDeviceConnectionService.kt:402-418 | `readNextCharacteristic` reads up to the first acceptance; each refusal reports NO_PROPERTY_READ; an emptied queue reports the loaded values and ends the work |
| ConnectionProperties.DescriptorDrainClosedForm | AndroidApp/app/src/main/java/net/satka/bleManager/ble/services/BluetoothDeviceConnectionService.kt:375-394 | `readNextDescriptor` reads up to the first acceptance; each refusal reports DESCRIPTOR_READ_FAILED; an emptied queue reports the descriptors and starts notifications |
| ConnectionProperties.FirstEnabled | AndroidApp/app/src/main/java/net/satka/bleManager/ble/services/BluetoothDeviceConnectionService.kt:345-358 | the position of the first characteristic that gets a CCCD write; none before it does |
| ConnectionProperties.NotifyDrainClosedForm | AndroidApp/app/src/main/java/net/satka/bleManager/ble/services/BluetoothDeviceConnectionService.kt:307-358 | the do-while passes over non-notifiable characteristics, reports NO_2902_DESCRIPTOR for those without a CCCD, and stops at the first CCCD write; an emptied queue starts the value reads |
| ConnectionProperties.MatchingMembers | AndroidApp/app/src/main/java/net/satka/bleManager/ble/services/BluetoothDeviceConnectionService.kt:535-553 | the result is exactly the characteristics that an asked-for (service, characteristic) pair resolves to |
| ConnectionProperties.WriteTypeIffWritable | AndroidApp/app/src/main/java/net/satka/bleManager/ble/services/BluetoothDeviceConnectionService.kt:477-496 | a write type exists iff the characteristic is writable in the device model's sense (mask 0x4C) |
| ConnectionProperties.WriteToAccepts | AndroidApp/app/src/main/java/net/satka/bleManager/ble/services/BluetoothDeviceConnectionService.kt:498-533 | a write is accepted iff the connection, service and writable characteristic exist and the client reports SUCCESS; it then sends the data once and starts work |
| ConnectionProperties.WriteToFailureIsFatal | AndroidApp/app/src/main/java/net/satka/bleManager/ble/services/BluetoothDeviceConnectionService.kt:498-533 | a write the client does not accept returns false; when sent, it is logged once and reported as WRITE_ERROR with the status or the exception message |
| ConnectionProperties.RefreshRediscovers | AndroidApp/app/src/main/java/net/satka/bleManager/ble/services/BluetoothDeviceConnectionService.kt:560-578 | a refresh on a ready connection with a mask sends `refresh()` to the stack and starts work; when the delay elapses it starts work again and issues exactly one service discovery |
| ConnectionProperties.RefreshFailures | AndroidApp/app/src/main/java/net/satka/bleManager/ble/services/BluetoothDeviceConnectionService.kt:560-578 | a thrown `refresh()` gives UNKNOWN_ERROR, no ready connection gives NOT_CONNECTED; only a successful refresh posts a rediscovery |
| ConnectionProperties.RediscoveryNeedsConnection | AndroidApp/app/src/main/java/net/satka/bleManager/ble/services/BluetoothDeviceConnectionService.kt:567-570 | a delayed rediscovery after the connection is gone sends no request |
| ConnectionProperties.ConnectOnce | AndroidApp/app/src/main/java/net/satka/bleManager/ble/services/BluetoothDeviceConnectionService.kt:580-605 | connecting starts one connection; a second `connectGatt` changes nothing |
| ConnectionProperties.DisconnectCloses | AndroidApp/app/src/main/java/net/satka/bleManager/ble/services/BluetoothDeviceConnectionService.kt:462-475 | an immediate disconnect clears readiness and the connection, sending disconnect then close; repeating it changes nothing |
| ConnectionProperties.SetMaskIdempotent | AndroidApp/app/src/main/java/net/satka/bleManager/ble/services/BluetoothDeviceConnectionService.kt:637-645 | setting the same mask twice is the same as setting it once |
| ConnectionProperties.DiscoveryWaitsForMtu | AndroidApp/app/src/main/java/net/satka/bleManager/ble/services/BluetoothDeviceConnectionService.kt:127-192 | with an accepted MTU request, only a successful `onMtuChanged` makes the connection ready and discovers services; a repeated callback does nothing |
| ConnectionProperties.DiscoveryWithoutMtu | AndroidApp/app/src/main/java/net/satka/bleManager/ble/services/BluetoothDeviceConnectionService.kt:127-142 | without an accepted MTU request, connecting makes the connection ready and discovers services when a mask is set |
| ConnectionProperties.CharacteristicDrainExtends | AndroidApp/app/src/main/java/net/satka/bleManager/ble/services/BluetoothDeviceConnectionService.kt:402-418 | the characteristic drain only appends to the request log |
| ConnectionProperties.NotifyDrainExtends | AndroidApp/app/src/main/java/net/satka/bleManager/ble/services/BluetoothDeviceConnectionService.kt:345-358 | the notification drain only appends to the request log |
| ConnectionProperties.DescriptorDrainExtends | AndroidApp/app/src/main/java/net/satka/bleManager/ble/services/BluetoothDeviceConnectionService.kt:375-394 | the descriptor drain only appends to the request log |
| ConnectionProperties.StaleDescriptorReadFirst | AndroidApp/app/src/main/java/net/satka/bleManager/ble/services/BluetoothDeviceConnectionService.kt:360-400 | the load queues are never cleared, so a new discovery first reads a descriptor left over from an earlier load |
| ConnectionProperties.ReadCharacteristicsRestarts | AndroidApp/app/src/main/java/net/satka/bleManager/ble/services/BluetoothDeviceConnectionService.kt:607-617 | `readCharacteristics` does not wait for a load in progress: it clears the loaded values and first reads whatever heads the queue |
| ConnectionService.FirstMatchIsFirst | AndroidApp/app/src/main/java/net/satka/bleManager/ble/services/BluetoothDeviceConnectionService.kt:363-370 | a position with a match and no earlier match is the one FirstMatch gives |
| ConnectionService.GattClient.Ask | AndroidApp/app/src/main/java/net/satka/bleManager/ble/services/BluetoothDeviceConnectionService.kt:379 | a request answered by the client's next oracle answer and logged |
| ConnectionService.GattClient.Write | AndroidApp/app/src/main/java/net/satka/bleManager/ble/services/BluetoothDeviceConnectionService.kt:508-512 | `writeCharacteristic` answers with the next oracle answer, a status code or a thrown message, and is logged |
| ConnectionService.BluetoothDeviceConnectionService.InvokeOnFatalError | AndroidApp/app/src/main/java/net/satka/bleManager/ble/services/BluetoothDeviceConnectionService.kt:114-117 | reports the error and ends the work |
| ConnectionService.BluetoothDeviceConnectionService.FindMatching | AndroidApp/app/src/main/java/net/satka/bleManager/ble/services/BluetoothDeviceConnectionService.kt:363-370 | the `for … break` loop stops where FirstMatch says |
| ConnectionService.BluetoothDeviceConnectionService.QueueCharacteristic | AndroidApp/app/src/main/java/net/satka/bleManager/ble/services/BluetoothDeviceConnectionService.kt:362-370 | appends the characteristic's entry, if any, to each of the three queues |
| ConnectionService.BluetoothDeviceConnectionService.QueueService | AndroidApp/app/src/main/java/net/satka/bleManager/ble/services/BluetoothDeviceConnectionService.kt:361-371 | appends one service's entries to the three queues, in GATT order |
| ConnectionService.BluetoothDeviceConnectionService.CreateLoadQueues | AndroidApp/app/src/main/java/net/satka/bleManager/ble/services/BluetoothDeviceConnectionService.kt:360-373 | appends every service's entries to the queues, which are never cleared |
| ConnectionService.BluetoothDeviceConnectionService.ReadNextDescriptor | AndroidApp/app/src/main/java/net/satka/bleManager/ble/services/BluetoothDeviceConnectionService.kt:375-394 | ends in the descriptor drain's state |
| ConnectionService.BluetoothDeviceConnectionService.ReadAllDescriptors | AndroidApp/app/src/main/java/net/satka/bleManager/ble/services/BluetoothDeviceConnectionService.kt:396-400 | clears the loaded descriptors, builds the queues and starts the drain |
| ConnectionService.BluetoothDeviceConnectionService.EnableNotifications | AndroidApp/app/src/main/java/net/satka/bleManager/ble/services/BluetoothDeviceConnectionService.kt:307-343 | writes the CCCD (preferring indication) and returns true, or reports a missing CCCD, or passes silently |
| ConnectionService.BluetoothDeviceConnectionService.EnableNextNotifications | AndroidApp/app/src/main/java/net/satka/bleManager/ble/services/BluetoothDeviceConnectionService.kt:345-358 | ends in the notification drain's state |
| ConnectionService.BluetoothDeviceConnectionService.ReadNextCharacteristic | AndroidApp/app/src/main/java/net/satka/bleManager/ble/services/BluetoothDeviceConnectionService.kt:402-418 | ends in the characteristic drain's state |
| ConnectionService.BluetoothDeviceConnectionService.ReadAllCharacteristics | AndroidApp/app/src/main/java/net/satka/bleManager/ble/services/BluetoothDeviceConnectionService.kt:420-425 | clears the loaded values and starts the characteristic drain |
| ConnectionService.BluetoothDeviceConnectionService.DiscoverServices | AndroidApp/app/src/main/java/net/satka/bleManager/ble/services/BluetoothDeviceConnectionService.kt:619-635 | discovers only with a mask set and the connection ready, otherwise ends the work; a refused discovery is fatal |
| ConnectionService.BluetoothDeviceConnectionService.OnConnectionStateChange | AndroidApp/app/src/main/java/net/satka/bleManager/ble/services/BluetoothDeviceConnectionService.kt:120-176 | the connect, disconnect and failure branches, including status 133 closing the connection |
| ConnectionService.BluetoothDeviceConnectionService.OnMtuChanged | AndroidApp/app/src/main/java/net/satka/bleManager/ble/services/BluetoothDeviceConnectionService.kt:178-192 | acts only when an MTU was requested: success makes the connection ready and discovers; failure is fatal |
| ConnectionService.BluetoothDeviceConnectionService.OnServicesDiscovered | AndroidApp/app/src/main/java/net/satka/bleManager/ble/services/BluetoothDeviceConnectionService.kt:194-204 | success stores the services and loads the descriptors; failure is fatal |
| ConnectionService.BluetoothDeviceConnectionService.OnDescriptorRead | AndroidApp/app/src/main/java/net/satka/bleManager/ble/services/BluetoothDeviceConnectionService.kt:206-227 | success appends the value and failure reports it; the next read follows either way |
| ConnectionService.BluetoothDeviceConnectionService.OnCharacteristicRead | AndroidApp/app/src/main/java/net/satka/bleManager/ble/services/BluetoothDeviceConnectionService.kt:229-250 | success appends the value and failure reports it; the next read follows either way |
| ConnectionService.BluetoothDeviceConnectionService.OnCharacteristicChanged | AndroidApp/app/src/main/java/net/satka/bleManager/ble/services/BluetoothDeviceConnectionService.kt:252-264 | forwards the notified value to the owner |
| ConnectionService.BluetoothDeviceConnectionService.OnDescriptorWrite | AndroidApp/app/src/main/java/net/satka/bleManager/ble/services/BluetoothDeviceConnectionService.kt:266-278 | success continues with the next notification; failure is fatal and stops the pipeline |
| ConnectionService.BluetoothDeviceConnectionService.OnCharacteristicWrite | AndroidApp/app/src/main/java/net/satka/bleManager/ble/services/BluetoothDeviceConnectionService.kt:280-293 | reports the outcome, then completes the write queue's write, success or failure |
| ConnectionService.BluetoothDeviceConnectionService.ConnectGatt | AndroidApp/app/src/main/java/net/satka/bleManager/ble/services/BluetoothDeviceConnectionService.kt:580-605 | a no-op with an active connection; otherwise records the MTU choice and connects when the adapter is on |
| ConnectionService.BluetoothDeviceConnectionService.DisconnectActiveConnection | AndroidApp/app/src/main/java/net/satka/bleManager/ble/services/BluetoothDeviceConnectionService.kt:462-475 | with a connection: clears readiness and disconnects, and closes as well when asked |
| ConnectionService.BluetoothDeviceConnectionService.Destroy | AndroidApp/app/src/main/java/net/satka/bleManager/ble/services/BluetoothDeviceConnectionService.kt:647-650 | disconnects and closes at once |
| ConnectionService.BluetoothDeviceConnectionService.SetDescriptorUuidMask | AndroidApp/app/src/main/java/net/satka/bleManager/ble/services/BluetoothDeviceConnectionService.kt:637-645 | an unchanged mask does nothing; a new one is stored and, when connected and ready, triggers discovery |
| ConnectionService.BluetoothDeviceConnectionService.RefreshServices | AndroidApp/app/src/main/java/net/satka/bleManager/ble/services/BluetoothDeviceConnectionService.kt:560-578 | when connected and ready, a thrown `refresh()` is fatal UNKNOWN_ERROR with its message; otherwise the call is logged, work starts and one delayed rediscovery is posted; not ready reports NOT_CONNECTED |
| ConnectionService.BluetoothDeviceConnectionService.OnRefreshDelayElapsed | AndroidApp/app/src/main/java/net/satka/bleManager/ble/services/BluetoothDeviceConnectionService.kt:567-570 | the posted block runs once per pending rediscovery: it starts work again and calls `discoverServices` |
| ConnectionService.BluetoothDeviceConnectionService.GetMatchingCharacteristics | AndroidApp/app/src/main/java/net/satka/bleManager/ble/services/BluetoothDeviceConnectionService.kt:535-553 | the nested loop computes Matching; no connection gives the empty list |
| ConnectionService.BluetoothDeviceConnectionService.ReadCharacteristics | AndroidApp/app/src/main/java/net/satka/bleManager/ble/services/BluetoothDeviceConnectionService.kt:607-617 | when ready with matches: queues them, starts work and reads; otherwise nothing |
| ConnectionService.BluetoothDeviceConnectionService.WriteToCharacteristic | AndroidApp/app/src/main/java/net/satka/bleManager/ble/services/BluetoothDeviceConnectionService.kt:498-533 | the result and the new state are those of WriteTo |
| ConnectionService.BluetoothDeviceConnectionService.SendWrite | AndroidApp/app/src/main/java/net/satka/bleManager/ble/services/BluetoothDeviceConnectionService.kt:506-527 | the write call's outcome: SUCCESS starts work; another status is fatal WRITE_ERROR with its number; an `IllegalArgumentException` is fatal WRITE_ERROR with its message |
| ConnectionService.BluetoothDeviceConnectionService.EnqueueWriteToCharacteristic | AndroidApp/app/src/main/java/net/satka/bleManager/ble/services/BluetoothDeviceConnectionService.kt:556-558 | hands the request to the write queue, whose enqueue contract it restates |

## Left out

- Android plumbing is not modelled:
  - runtime permissions and their dialogs;
  - the broadcast receiver for bond and adapter state, and its unregistering in `destroy`;
  - every `SecurityException` catch path;
  - `enableBluetooth` and `openAppSettings`.
- ConnectionService.BluetoothDeviceConnectionService.RefreshServices: whether the reflective `refresh()` call throws, and with what message, is a parameter; a call that returns is logged as the request `RefreshCache`. The 6-second `Handler` delay is not timed: the posted block is the separate step `OnRefreshDelayElapsed`, which may run after any other call.
- Logging (`Log.*`) and Compose `MutableState` observability are not modelled. A control's value is a plain field.
- Codecs.RoundTrip and FloatWrappers.RoundTrip hold over bit patterns only. The half-float codec rounds a `Float` to the nearest half with `Half.toHalf` (HalfFloatWrapper.kt:24-26), and `toBits` gives every NaN one canonical pattern, so for IEEE values neither round trip is exact.
- IEEE 754 numerics are not modelled:
  - float, double and half-float values are kept as bit patterns; only the wrong-length-gives-NaN guard is modelled;
  - the float bound and step arms of the control table record only which kind they build.
- CharacteristicModel.Lower, CharacteristicModel.ErrorTexts and CharacteristicModel.TagIsCaseInsensitive: lower-casing covers the ASCII, Latin-1, Greek and Cyrillic capitals and the Ohm, Kelvin and Angstrom signs. `String.lowercase()` maps every Unicode capital, so a tag with another capital (Latin Extended, Armenian, …) gives a different "Unknown Type" text. Greek capital sigma, whose lower case depends on the next character, and U+0130, which lower-cases to two characters, are left unchanged.
- DecimalDigits.BlockZero, DescriptorConfigurationParser.ParseUnsigned and DeviceSettings.Sanitize: the decimal digits are the Nd blocks of the Basic Multilingual Plane in Unicode 15. A device whose Java runtime has another Unicode version may accept a different set.
- WriteQueue.BleWriteQueue, WriteQueue.AtMostOneOutstanding and ConnectionService.BluetoothDeviceConnectionService: every call is assumed to run to its end before the next starts. The source gives no such guarantee. GATT callbacks such as `onCharacteristicWrite` → `onWriteComplete` run on a binder thread, while `enqueueWrite` and the public calls run on the UI thread, and nothing is synchronised. The race this allows in the write queue is shown under Findings. The lists handed to `onDescriptorsRead` and `onCharacteristicsRead` are live mutable lists in the source and snapshots in the model.
- The Gson JSON grammar and reflection are not modelled. The decoder is a function parameter that yields a configuration or an exception message.
- String resources (`context.getString(R.string.…)`) are kept as resource names, because their texts are not part of the code.
- StringWrapper.FromBytes: `String(bytes)` decodes with the platform's default charset. The model uses one character per byte (ISO 8859-1), so multi-byte UTF-8 text is not modelled.
- StringWrapper.ToBytes: `toByteArray()` encodes as UTF-8. The model writes the low byte of each character, which agrees only for ISO 8859-1 text.
- DescriptorValueModel.Create: the platform charset that turns descriptor bytes into text is a function parameter.
- Comparers.CompareUuidWithMask: the mask is a regular expression in which only '#' and '.' are wildcards. Other regular-expression metacharacters are not modelled, so the properties are stated for masks over hex digits and '#'.
- DeviceModel.GetServicesOrdered: names are compared by Unicode code point. Kotlin's `String.compareTo` compares UTF-16 units, and the two orders differ only for characters outside the Basic Multilingual Plane.
- Gatt.FindService, Gatt.FindCharacteristic and Gatt.FindDescriptor return the first element with the UUID. The Android platform does the same, but its code is not part of this model.
- The write queue is owned by the connection service, which hands it its own `writeToToCharacteristic` as the transport (BluetoothDeviceConnectionService.kt:64). The queue receives that transport as a function value, modelled as an oracle (`WriteQueue.Link`). The effects of `enqueueWrite` → `writeToToCharacteristic` on the service's requests and notices are therefore not composed; `WriteToCharacteristic` is modelled and proved on its own.
- `onCharacteristicChanged` only forwards the notified value. Routing that value into the device model happens in the UI, which is not part of this model.
- Bonding, scanning, the UI screens, persistence, update checks, debouncing and the date formatting helpers are not modelled. None of them is part of the core.

## Findings

| source | as written | input that shows it | evidently intended | confidence | as-written member | corrected member |
|---|---|---|---|---|---|---|
| AndroidApp/app/src/main/java/net/satka/bleManager/utils/BLEWriteQueue.kt:16-38 | `enqueueWrite` (UI thread) and `onWriteComplete` (GATT binder thread) both run `processNextWrite` without a lock, so both can pass the `isWriting` guard before either sets it | write w in flight and a queued; `onWriteComplete` clears the flag and passes the guard, `enqueueWrite(b)` passes the guard too, each polls and writes: a and b are both in flight | at most one write in flight, e.g. with `@Synchronized` on `enqueueWrite` and `onWriteComplete` | not executed | WriteQueueThreads.UnsynchronisedRace | WriteQueue.AtMostOneOutstanding |
