// CharacteristicModel: one control per GATT characteristic. The ~55 Kotlin
// subclasses become one `Kind` datatype; `setupCharacteristicModel` becomes
// the function `Setup`, and the control itself, whose value the user and the
// device change, is the class `Characteristic`.
module CharacteristicModel {
  import opened Bytes
  import opened Outcomes
  import opened Uuids
  import opened Codecs
  import opened IntegerWrappers
  import FloatWrappers
  import DescriptorConfiguration
  import DescriptorValueModel

  const DefaultSliderDebounceMillis := 300
  const DefaultIntSliderMin := 0
  const DefaultIntSliderMax := 100
  const DefaultIntSliderStep := 1
  /** `GATT_MAX_ATTR_LEN`: the longest attribute value, 512 bytes (Bluetooth
      Core Specification Vol 3, Part F, section 3.2.9). */
  const GattMaxAttrLen := 512

  datatype Kind =
    | ServiceName | TitleView | TextView | RichTextView
    | TextField(maxBytes: int) | PasswordField(maxBytes: int) | PinField(maxBytes: int)
    | Checkbox | Switch
    | IntegerField(intKind: IntKind, bigEndian: bool, min: int, max: int)
    | FloatField(format: FloatWrappers.FloatKind, bigEndian: bool)
    | Button
    | TimeField(bigEndian: bool)
    | Date32Field(bigEndian: bool) | Date64Field(bigEndian: bool)
    | DateTime32Field(bigEndian: bool) | DateTime64Field(bigEndian: bool)
    | IntegerSlider(intKind: IntKind, bigEndian: bool, min: int, max: int, step: int, debounceMillis: int)
    | FloatSlider(format: FloatWrappers.FloatKind, bigEndian: bool, debounceMillis: int)
    | ColorPicker(showAlphaSlider: bool)
    | Dropdown(options: seq<string>)
    | Error(text: string)

  /** The immutable part of a control: its constructor arguments. */
  datatype Control = Control(uuid: Uuid, order: Int32, disabled: bool, caption: Option<string>, kind: Kind)

  /** The `wrapper` each subclass declares. */
  function CodecOf(k: Kind): Codec
  {
    match k
    case ServiceName | TitleView | TextView | RichTextView => StringCodec
    case TextField(_) | PasswordField(_) | PinField(_) | Dropdown(_) | Error(_) => StringCodec
    case Checkbox | Switch => BooleanCodec
    case IntegerField(ik, be, _, _) => IntegerCodec(ik, be)
    case IntegerSlider(ik, be, _, _, _, _) => IntegerCodec(ik, be)
    case Button => IntegerCodec(UInt8, false)
    case FloatField(f, be) => FloatCodec(f, be)
    case FloatSlider(f, be, _) => FloatCodec(f, be)
    case TimeField(be) => TimeCodec(be)
    case Date32Field(be) => DateTime32Codec(be)
    case DateTime32Field(be) => DateTime32Codec(be)
    case Date64Field(be) => DateTime64Codec(be)
    case DateTime64Field(be) => DateTime64Codec(be)
    case ColorPicker(_) => ColorCodec
  }

  /** The three read-only text views. */
  predicate IsReadOnlyText(k: Kind)
  {
    k.TitleView? || k.TextView? || k.RichTextView?
  }

  /** Kotlin's `Long.toUByte()`, `ULong.toShort()` and the like: the low bytes
      of the two's-complement word, read as the kind's type. */
  function Narrow(k: IntKind, x: int): (r: int)
    ensures InRange(k, r)
  {
    var w := Width(k);
    var u := x % Pow256(w);
    BoundsMatchWidth(k);
    if IsSigned(k) then Signed(u, w) else u
  }

  /** The configured bound narrowed to the kind, or the default when absent. */
  function Configured(k: IntKind, configured: Option<int>, default: int): int
  {
    if configured.Some? then Narrow(k, configured.value) else default
  }

  /** `maxOf(configured ?: default, MIN_VALUE)` */
  function LowerBound(k: IntKind, configured: Option<int>, default: int): int
  {
    var b := Configured(k, configured, default);
    if b < MinValue(k) then MinValue(k) else b
  }

  /** `minOf(configured ?: default, MAX_VALUE)` */
  function UpperBound(k: IntKind, configured: Option<int>, default: int): int
  {
    var b := Configured(k, configured, default);
    if b > MaxValue(k) then MaxValue(k) else b
  }

  function MinInt(c: DescriptorConfiguration.Config): Option<int>
  {
    if c.minInt.Some? then Some(c.minInt.value) else None
  }

  function MaxInt(c: DescriptorConfiguration.Config): Option<int>
  {
    if c.maxInt.Some? then Some(c.maxInt.value) else None
  }

  function StepInt(c: DescriptorConfiguration.Config): Option<int>
  {
    if c.stepInt.Some? then Some(c.stepInt.value) else None
  }

  /** An integer field: bounds default to the codec's limits. */
  function IntegerFieldOf(k: IntKind, be: bool, c: DescriptorConfiguration.Config): Kind
  {
    IntegerField(k, be, LowerBound(k, MinInt(c), MinValue(k)), UpperBound(k, MaxInt(c), MaxValue(k)))
  }

  /** An integer slider: bounds default to 0..100 and the step to 1. */
  function IntegerSliderOf(k: IntKind, be: bool, c: DescriptorConfiguration.Config): Kind
  {
    IntegerSlider(k, be, LowerBound(k, MinInt(c), DefaultIntSliderMin), UpperBound(k, MaxInt(c), DefaultIntSliderMax),
      Configured(k, StepInt(c), DefaultIntSliderStep), DefaultSliderDebounceMillis)
  }

  /** `(maxBytes ?: GATT_MAX_ATTR_LEN).coerceAtLeast(0).coerceAtMost(GATT_MAX_ATTR_LEN)` */
  function MaxBytesOf(c: DescriptorConfiguration.Config): int
  {
    var m := if c.maxBytes.Some? then c.maxBytes.value else GattMaxAttrLen;
    var atLeast := if m < 0 then 0 else m;
    if atLeast > GattMaxAttrLen then GattMaxAttrLen else atLeast
  }

  datatype TextStyle = PlainText | Password | Pin

  /** What a type tag selects, before the configuration is applied. */
  datatype Entry =
    | Fixed(kind: Kind)
    | TextEntry(style: TextStyle)
    | IntegerEntry(intKind: IntKind, bigEndian: bool)
    | SliderEntry(intKind: IntKind, bigEndian: bool)
    | ColorEntry
    | DropdownEntry

  /** The arms of the `when` over the lower-cased type tag; None is its
      `else` arm. */
  function EntryFor(tag: string): Option<Entry>
  {
    match tag
    case "servicename" => Some(Fixed(ServiceName))
    case "titleview" => Some(Fixed(TitleView))
    case "textview" => Some(Fixed(TextView))
    case "richtextview" => Some(Fixed(RichTextView))
    case "text" => Some(TextEntry(PlainText))
    case "password" => Some(TextEntry(Password))
    case "pin" => Some(TextEntry(Pin))
    case "check" => Some(Fixed(Checkbox))
    case "switch" => Some(Fixed(Switch))
    case "uint8" => Some(IntegerEntry(UInt8, false))
    case "uint16" => Some(IntegerEntry(UInt16, false))
    case "uint32" => Some(IntegerEntry(UInt32, false))
    case "uint64" => Some(IntegerEntry(UInt64, false))
    case "sint8" => Some(IntegerEntry(SInt8, false))
    case "sint16" => Some(IntegerEntry(SInt16, false))
    case "sint32" => Some(IntegerEntry(SInt32, false))
    case "sint64" => Some(IntegerEntry(SInt64, false))
    case "half" => Some(Fixed(FloatField(FloatWrappers.Half, false)))
    case "float" => Some(Fixed(FloatField(FloatWrappers.Single, false)))
    case "double" => Some(Fixed(FloatField(FloatWrappers.Double, false)))
    case "uint8be" => Some(IntegerEntry(UInt8, true))
    case "uint16be" => Some(IntegerEntry(UInt16, true))
    case "uint32be" => Some(IntegerEntry(UInt32, true))
    case "uint64be" => Some(IntegerEntry(UInt64, true))
    case "sint8be" => Some(IntegerEntry(SInt8, true))
    case "sint16be" => Some(IntegerEntry(SInt16, true))
    case "sint32be" => Some(IntegerEntry(SInt32, true))
    case "sint64be" => Some(IntegerEntry(SInt64, true))
    case "halfbe" => Some(Fixed(FloatField(FloatWrappers.Half, true)))
    case "floatbe" => Some(Fixed(FloatField(FloatWrappers.Single, true)))
    case "doublebe" => Some(Fixed(FloatField(FloatWrappers.Double, true)))
    case "button" => Some(Fixed(Button))
    case "time" => Some(Fixed(TimeField(false)))
    case "date32" => Some(Fixed(Date32Field(false)))
    case "datetime32" => Some(Fixed(DateTime32Field(false)))
    case "date64" => Some(Fixed(Date64Field(false)))
    case "datetime64" => Some(Fixed(DateTime64Field(false)))
    case "timebe" => Some(Fixed(TimeField(true)))
    case "date32be" => Some(Fixed(Date32Field(true)))
    case "datetime32be" => Some(Fixed(DateTime32Field(true)))
    case "date64be" => Some(Fixed(Date64Field(true)))
    case "datetime64be" => Some(Fixed(DateTime64Field(true)))
    case "floatslider" => Some(Fixed(FloatSlider(FloatWrappers.Single, false, DefaultSliderDebounceMillis)))
    case "halfslider" => Some(Fixed(FloatSlider(FloatWrappers.Half, false, DefaultSliderDebounceMillis)))
    case "floatsliderbe" => Some(Fixed(FloatSlider(FloatWrappers.Single, true, DefaultSliderDebounceMillis)))
    case "halfsliderbe" => Some(Fixed(FloatSlider(FloatWrappers.Half, true, DefaultSliderDebounceMillis)))
    case "uint8slider" => Some(SliderEntry(UInt8, false))
    case "uint16slider" => Some(SliderEntry(UInt16, false))
    case "sint8slider" => Some(SliderEntry(SInt8, false))
    case "sint16slider" => Some(SliderEntry(SInt16, false))
    case "uint8sliderbe" => Some(SliderEntry(UInt8, true))
    case "uint16sliderbe" => Some(SliderEntry(UInt16, true))
    case "sint8sliderbe" => Some(SliderEntry(SInt8, true))
    case "sint16sliderbe" => Some(SliderEntry(SInt16, true))
    case "color" => Some(ColorEntry)
    case "dropdown" => Some(DropdownEntry)
    case _ => None
  }

  /** The control kind an arm builds from the configuration. */
  function Build(e: Entry, c: DescriptorConfiguration.Config): Kind
  {
    match e
    case Fixed(k) => k
    case TextEntry(PlainText) => TextField(MaxBytesOf(c))
    case TextEntry(Password) => PasswordField(MaxBytesOf(c))
    case TextEntry(Pin) => PinField(MaxBytesOf(c))
    case IntegerEntry(k, be) => IntegerFieldOf(k, be, c)
    case SliderEntry(k, be) => IntegerSliderOf(k, be, c)
    case ColorEntry => ColorPicker(c.alphaSlider == Some(true))
    case DropdownEntry => Dropdown(if c.options.Some? then c.options.value else [])
  }

  function KindFor(tag: string, c: DescriptorConfiguration.Config): Option<Kind>
  {
    var e := EntryFor(tag);
    if e.Some? then Some(Build(e.value, c)) else None
  }

  /** `Char.lowercaseChar()` on the capitals that map to one character
      without context: ASCII, Latin-1 (U+00C0..U+00DE but the multiplication
      sign), Greek (U+0391..U+03A9 but sigma, whose lower case depends on the
      next character), Cyrillic (U+0400..U+042F), and the Ohm, Kelvin and
      Angstrom signs, which lower-case to omega, 'k' and a-ring. */
  function LowerChar(ch: char): char
  {
    var n := ch as int;
    if 'A' <= ch <= 'Z' || (0xC0 <= n <= 0xDE && n != 0xD7) then (n + 0x20) as char
    else if 0x391 <= n <= 0x3A9 && n != 0x3A2 && n != 0x3A3 then (n + 0x20) as char
    else if 0x410 <= n <= 0x42F then (n + 0x20) as char
    else if 0x400 <= n <= 0x40F then (n + 0x50) as char
    else if n == 0x2126 then '\U{03C9}'
    else if ch == '\U{212A}' then 'k'
    else if n == 0x212B then '\U{00E5}'
    else ch
  }

  /** `String.lowercase()` */
  function Lower(s: string): (r: string)
    ensures |r| == |s| && forall i :: 0 <= i < |s| ==> r[i] == LowerChar(s[i])
  {
    if s == [] then [] else [LowerChar(s[0])] + Lower(s[1..])
  }

  /** A string template renders a null as "null". */
  function Rendered(s: Option<string>): string
  {
    if s.Some? then s.value else "null"
  }

  /** `CharacteristicModel.Error(uuid, onWrite, text)`: order -1, always disabled. */
  function ErrorControl(uuid: Uuid, text: string): Control
  {
    Control(uuid, -1, true, None, Error(text))
  }

  function InvalidConfigurationText(uuid: Uuid, errorText: Option<string>): string
  {
    ToString(uuid) + "\nInvalid Descriptor Configuration:\n" + Rendered(errorText)
  }

  function UnknownTypeText(tag: string): string
  {
    "Unknown Type: " + tag
  }

  /** The configured `disabled` flag, false when absent. */
  function DisabledByDescriptor(d: DescriptorValueModel.DescriptorValue): bool
  {
    d.configuration.Some? && d.configuration.value.disabled == Some(true)
  }

  /** The lower-cased type tag, or None when there is no configuration or no tag. */
  function TagOf(d: DescriptorValueModel.DescriptorValue): Option<string>
  {
    if d.configuration.Some? && d.configuration.value.kind.Some?
    then Some(Lower(d.configuration.value.kind.value))
    else None
  }

  /** `setupCharacteristicModel(uuid, descriptorValueModel, onWrite, isWritable)`.
      The onWrite callback is bound later, when the control object is made. */
  function Setup(uuid: Uuid, d: Option<DescriptorValueModel.DescriptorValue>, isWritable: bool): (r: Option<Control>)
    ensures r.None? <==> d.None?
    ensures r.Some? ==> r.value.uuid == uuid
    ensures r.Some? && r.value.kind.Error? ==> r.value.order == -1 && r.value.disabled && r.value.caption.None?
    ensures r.Some? && !r.value.kind.Error? ==>
      d.value.configuration.Some? && d.value.configuration.value.kind.Some?
      && r.value.order == (if d.value.configuration.value.order.Some? then d.value.configuration.value.order.value else 0)
  {
    if d.None? then None
    else
      var dv := d.value;
      var byDescriptor := DisabledByDescriptor(dv);
      var disabled := !isWritable || byDescriptor;
      match TagOf(dv)
      case None => Some(ErrorControl(uuid, InvalidConfigurationText(uuid, dv.errorText)))
      case Some(tag) =>
        var c := dv.configuration.value;
        var order := if c.order.Some? then c.order.value else 0;
        match KindFor(tag, c)
        case None => Some(ErrorControl(uuid, UnknownTypeText(tag)))
        case Some(k) =>
          if k.ServiceName? then Some(Control(uuid, order, disabled, None, k))
          else if IsReadOnlyText(k) then Some(Control(uuid, order, byDescriptor, None, k))
          else Some(Control(uuid, order, disabled, c.caption, k))
  }

  /** A control is disabled when the characteristic is not writable or the
      descriptor says so; the read-only text views look only at the
      descriptor. */
  lemma {:induction false} DisabledRule(uuid: Uuid, d: DescriptorValueModel.DescriptorValue, isWritable: bool)
    requires Setup(uuid, Some(d), isWritable).value.kind.Error? == false
    ensures var r := Setup(uuid, Some(d), isWritable).value;
      r.disabled == if IsReadOnlyText(r.kind) then DisabledByDescriptor(d) else !isWritable || DisabledByDescriptor(d)
  {
  }

  /** A descriptor without a usable type tag, or with a tag outside the
      table, gives an Error control that says why. */
  lemma {:induction false} ErrorTexts(uuid: Uuid, d: DescriptorValueModel.DescriptorValue, isWritable: bool)
    ensures TagOf(d).None? ==>
      Setup(uuid, Some(d), isWritable) == Some(ErrorControl(uuid, InvalidConfigurationText(uuid, d.errorText)))
    ensures TagOf(d).Some? && KindFor(TagOf(d).value, d.configuration.value).None? ==>
      Setup(uuid, Some(d), isWritable) == Some(ErrorControl(uuid, UnknownTypeText(TagOf(d).value)))
    ensures Setup(uuid, Some(d), isWritable).value.kind.Error? <==>
      TagOf(d).None? || KindFor(TagOf(d).value, d.configuration.value).None?
  {
  }

  /** The tags the table knows. */
  const KnownTags: set<string> := {
    "servicename", "titleview", "textview", "richtextview", "text", "password", "pin", "check", "switch",
    "uint8", "uint16", "uint32", "uint64", "sint8", "sint16", "sint32", "sint64", "half", "float", "double",
    "uint8be", "uint16be", "uint32be", "uint64be", "sint8be", "sint16be", "sint32be", "sint64be",
    "halfbe", "floatbe", "doublebe", "button",
    "time", "date32", "datetime32", "date64", "datetime64",
    "timebe", "date32be", "datetime32be", "date64be", "datetime64be",
    "floatslider", "halfslider", "floatsliderbe", "halfsliderbe",
    "uint8slider", "uint16slider", "sint8slider", "sint16slider",
    "uint8sliderbe", "uint16sliderbe", "sint8sliderbe", "sint16sliderbe",
    "color", "dropdown"}

  /** The table is closed: only the known tags select an arm, and no arm
      builds an Error control. */
  lemma {:induction false} TableIsClosed(tag: string, c: DescriptorConfiguration.Config)
    ensures EntryFor(tag).Some? ==> tag in KnownTags
    ensures KindFor(tag, c).Some? ==> !KindFor(tag, c).value.Error?
  {
  }

  /** Narrowing keeps every value the kind can hold, and is the same as
      writing the value's low bytes and decoding them again. */
  lemma {:induction false} NarrowKeepsInRange(k: IntKind, x: int)
    ensures InRange(k, x) ==> Narrow(k, x) == x
    ensures Narrow(k, x) == FromBytes(k, LeEncode(x, Width(k)))
  {
    var w := Width(k);
    BoundsMatchWidth(k);
    LeValueOfEncode(x, w);
    assert Prefix(LeEncode(x, w), w) == LeEncode(x, w);
    if InRange(k, x) {
      if IsSigned(k) {
        SignedRoundTrip(x, w);
      } else {
        DivModUnique(x, Pow256(w), 0, x);
      }
    }
  }

  /** Integer bounds always lie within the codec's range, and a configured
      bound that already fits is used unchanged. */
  lemma {:induction false} IntegerBounds(k: IntKind, configured: Option<int>, default: int)
    requires InRange(k, default)
    ensures InRange(k, LowerBound(k, configured, default)) && InRange(k, UpperBound(k, configured, default))
    ensures configured.Some? && InRange(k, configured.value) ==>
      LowerBound(k, configured, default) == configured.value == UpperBound(k, configured, default)
    ensures configured.None? ==> LowerBound(k, configured, default) == default == UpperBound(k, configured, default)
  {
    if configured.Some? {
      NarrowKeepsInRange(k, configured.value);
    }
  }

  /** Every integer control the table builds has its bounds in range. */
  lemma {:induction false} BuiltBoundsInRange(e: Entry, c: DescriptorConfiguration.Config)
    requires !e.Fixed?
    ensures var k := Build(e, c);
      (k.IntegerField? || k.IntegerSlider?) ==> InRange(k.intKind, k.min) && InRange(k.intKind, k.max)
  {
    var k := Build(e, c);
    if k.IntegerField? {
      IntegerBounds(k.intKind, MinInt(c), MinValue(k.intKind));
      IntegerBounds(k.intKind, MaxInt(c), MaxValue(k.intKind));
    } else if k.IntegerSlider? {
      IntegerBounds(k.intKind, MinInt(c), DefaultIntSliderMin);
      IntegerBounds(k.intKind, MaxInt(c), DefaultIntSliderMax);
    }
  }

  /** Bounds are narrowed before they are compared with the codec's limits,
      so a uint8 field configured with -10..999 gets min 246 and max 231:
      min <= max is not guaranteed. */
  lemma {:induction false} NarrowedBoundsCanCross()
    ensures var c := DescriptorConfiguration.Empty.(kind := Some("uint8"), minInt := Some(-10), maxInt := Some(999));
      KindFor("uint8", c) == Some(IntegerField(UInt8, false, 246, 231))
  {
    Pow256Values();
    DivModUnique(-10, 256, -1, 246);
    DivModUnique(999, 256, 3, 231);
  }

  /** Text lengths are clamped to 0..512 and default to 512. */
  lemma {:induction false} MaxBytesClamped(c: DescriptorConfiguration.Config)
    ensures 0 <= MaxBytesOf(c) <= GattMaxAttrLen
    ensures c.maxBytes.None? ==> MaxBytesOf(c) == GattMaxAttrLen
    ensures c.maxBytes.Some? && 0 <= c.maxBytes.value <= GattMaxAttrLen ==> MaxBytesOf(c) == c.maxBytes.value
  {
  }

  /** An unconfigured integer slider runs 0..100 in steps of 1 with a 300 ms
      debounce. */
  lemma {:induction false} SliderDefaults(k: IntKind, be: bool)
    requires Width(k) <= 2
    ensures IntegerSliderOf(k, be, DescriptorConfiguration.Empty) == IntegerSlider(k, be, 0, 100, 1, 300)
  {
  }

  /** Only the lower-cased tag matters: tags that lower-case alike give the
      same control. */
  lemma {:induction false} TagIsCaseInsensitive(uuid: Uuid, d: DescriptorValueModel.DescriptorValue, tag': string, isWritable: bool)
    requires d.configuration.Some? && d.configuration.value.kind.Some?
    requires Lower(tag') == Lower(d.configuration.value.kind.value)
    ensures Setup(uuid, Some(d.(configuration := Some(d.configuration.value.(kind := Some(tag'))))), isWritable)
         == Setup(uuid, Some(d), isWritable)
  {
    var c := d.configuration.value;
    var d' := d.(configuration := Some(c.(kind := Some(tag'))));
    assert TagOf(d') == TagOf(d);
    KindForIgnoresTagField(Lower(tag'), c, Some(tag'));
  }

  /** The table reads the bounds, lengths and options of the configuration,
      never its type tag. */
  lemma {:induction false} KindForIgnoresTagField(tag: string, c: DescriptorConfiguration.Config, t: Option<string>)
    ensures KindFor(tag, c.(kind := t)) == KindFor(tag, c)
  {
    var e := EntryFor(tag);
    if e.Some? {
      assert Build(e.value, c.(kind := t)) == Build(e.value, c);
    }
  }

  /** An accented capital in an unknown tag is reported lower-cased. */
  lemma {:induction false} AccentedTagLowerCased()
    ensures Lower("\U{00C9}") == "\U{00E9}" && Lower("\U{0416}") == "\U{0436}"
  {
  }

  /** Lower-casing is not ASCII-only: a Kelvin sign in place of the final 'K'
      still selects the checkbox. */
  lemma {:induction false} KelvinSignSelectsCheckbox(c: DescriptorConfiguration.Config)
    ensures KindFor(Lower("CHEC\U{212A}"), c) == Some(Checkbox)
  {
    assert Lower("CHEC\U{212A}") == "check";
  }

  /** date32 and datetime32 share one codec, as do the 64-bit and the
      big-endian pairs; a button writes one unsigned byte. */
  lemma {:induction false} SharedCodecs(be: bool)
    ensures CodecOf(Date32Field(be)) == CodecOf(DateTime32Field(be)) == DateTime32Codec(be)
    ensures CodecOf(Date64Field(be)) == CodecOf(DateTime64Field(be)) == DateTime64Codec(be)
    ensures CodecOf(Button) == IntegerCodec(UInt8, false)
  {
  }

  /** One `onWrite(uuid, bytes)` call, with the service UUID that the
      service's callback adds before passing it on. */
  datatype WriteRequest = WriteRequest(serviceUuid: Uuid, characteristicUuid: Uuid, data: seq<Byte>)

  /** The receiver of every control's onWrite calls, in call order. */
  class Outbox {
    var sent: seq<WriteRequest>

    constructor ()
      ensures sent == []
    {
      sent := [];
    }
  }

  /** `write(newValue)` acts only on an enabled, non-Error control and only
      when the value changes. */
  predicate WriteTakesEffect(c: Control, current: Option<Value>, v: Value)
  {
    !c.kind.Error? && !c.disabled && current != Some(v)
  }

  /** The value a control starts with: the Error kind shows its text, every
      other kind has none until it is read. */
  function InitialValue(k: Kind): Option<Value>
  {
    if k.Error? then Some(TextValue(k.text)) else None
  }

  /** Writing the value a control already holds does nothing, so a repeated
      write sends nothing. */
  lemma {:induction false} RepeatedWriteIsIgnored(c: Control, v: Value)
    ensures !WriteTakesEffect(c, Some(v), v)
  {
  }

  /** An Error control never writes, whatever it is asked to write. */
  lemma {:induction false} ErrorNeverWrites(uuid: Uuid, text: string, current: Option<Value>, v: Value)
    ensures !WriteTakesEffect(ErrorControl(uuid, text), current, v)
  {
  }

  class Characteristic {
    const serviceUuid: Uuid
    const control: Control
    const outbox: Outbox
    var value: Option<Value>

    /** The control object; `serviceUuid` is the service the onWrite
        callback was bound to. */
    constructor (serviceUuid: Uuid, control: Control, outbox: Outbox)
      ensures this.serviceUuid == serviceUuid && this.control == control && this.outbox == outbox
      ensures value == InitialValue(control.kind)
    {
      this.serviceUuid := serviceUuid;
      this.control := control;
      this.outbox := outbox;
      value := InitialValue(control.kind);
    }

    /** `write(newValue)`: stores the value and sends its encoding once. */
    method Write(v: Value)
      requires Admits(CodecOf(control.kind), v)
      modifies this, outbox
      ensures WriteTakesEffect(control, old(value), v) ==>
        value == Some(v)
        && outbox.sent == old(outbox.sent) + [WriteRequest(serviceUuid, control.uuid, Encode(CodecOf(control.kind), v))]
      ensures !WriteTakesEffect(control, old(value), v) ==> value == old(value) && outbox.sent == old(outbox.sent)
    {
      if control.kind.Error? {
        return;
      }
      if !control.disabled && value != Some(v) {
        value := Some(v);
        var bytes := Encode(CodecOf(control.kind), v);
        outbox.sent := outbox.sent + [WriteRequest(serviceUuid, control.uuid, bytes)];
      }
    }

    /** `setByteValue(bytes)`: decodes, whatever the disabled flag; a no-op
        on the Error kind. Nothing is sent. */
    method SetByteValue(bytes: seq<Byte>)
      modifies this
      ensures value == if control.kind.Error? then old(value) else Some(Decode(CodecOf(control.kind), bytes))
    {
      if !control.kind.Error? {
        value := Some(Decode(CodecOf(control.kind), bytes));
      }
    }
  }
}
