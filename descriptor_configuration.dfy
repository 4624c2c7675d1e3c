// DescriptorConfiguration: the JSON object a control descriptor carries. Every
// field is optional and absent by default; the integer fields have the
// widths of their Kotlin types.
module DescriptorConfiguration {
  import opened Bytes
  import opened Outcomes

  /** A `Double` kept as its 64-bit IEEE 754 pattern; its value is not modelled. */
  type DoubleBits = UInt64

  datatype Config = Config(
    kind: Option<string>,             // "type"
    disabled: Option<bool>,           // "disabled"
    order: Option<Int32>,             // "order"
    caption: Option<string>,          // "label"
    minInt: Option<Int64>,            // "minInt": a signed Long
    maxInt: Option<UInt64>,           // "maxInt": an unsigned ULong
    minFloat: Option<DoubleBits>,     // "minFloat"
    maxFloat: Option<DoubleBits>,     // "maxFloat"
    stepFloat: Option<DoubleBits>,    // "stepFloat"
    stepInt: Option<UInt32>,          // "stepInt": an unsigned UInt
    alphaSlider: Option<bool>,        // "alphaSlider"
    options: Option<seq<string>>,     // "options"
    maxBytes: Option<Int32>           // "maxBytes"
  )

  /** The configuration with every field absent, `DescriptorConfiguration()`. */
  const Empty := Config(None, None, None, None, None, None, None, None, None, None, None, None, None)

  /** The JSON key of each field, as given by its serialized name. */
  const Keys: seq<string> := ["type", "disabled", "order", "label", "minInt", "maxInt",
    "minFloat", "maxFloat", "stepFloat", "stepInt", "alphaSlider", "options", "maxBytes"]
}
