// DescriptorValueModel: the raw bytes of a control descriptor together with
// the configuration parsed from them, or the reason parsing failed.
module DescriptorValueModel {
  import opened Bytes
  import opened Outcomes
  import opened Uuids
  import opened DescriptorConfiguration
  import Parser = DescriptorConfigurationParser

  /** `String(bytes)` with the platform's default charset: a parameter here. */
  type TextDecoder = seq<Byte> -> string

  datatype DescriptorValue = DescriptorValue(
    serviceUuid: Uuid,
    characteristicUuid: Uuid,
    value: seq<Byte>,
    configuration: Option<Config>,
    errorText: Option<string>
  )

  /** The constructor: the bytes are decoded to text and parsed once; success
      sets the configuration and leaves errorText null, an exception sets
      errorText to its message and leaves the configuration null. */
  function Create(service: Uuid, characteristic: Uuid, value: seq<Byte>,
                  text: TextDecoder, decode: Parser.JsonDecoder): (m: DescriptorValue)
    ensures m.serviceUuid == service && m.characteristicUuid == characteristic && m.value == value
    ensures m.configuration.Some? ==> m.errorText.None?
    ensures m.errorText.Some? ==> m.configuration.None?
    ensures Parser.ParseJson(Some(text(value)), decode).Ok? ==>
      m.configuration == Parser.ParseJson(Some(text(value)), decode).value && m.errorText == None
    ensures Parser.ParseJson(Some(text(value)), decode).Err? ==>
      m.configuration == None && m.errorText == Parser.ParseJson(Some(text(value)), decode).error
  {
    match Parser.ParseJson(Some(text(value)), decode)
    case Ok(c) => DescriptorValue(service, characteristic, value, c, None)
    case Err(msg) => DescriptorValue(service, characteristic, value, None, msg)
  }

  /** A descriptor whose text is empty never carries a configuration, and
      reports why. */
  lemma {:induction false} EmptyDescriptorReportsWhy(service: Uuid, characteristic: Uuid, value: seq<Byte>,
                                  text: TextDecoder, decode: Parser.JsonDecoder)
    requires Parser.IsEmptyText(Some(text(value)))
    ensures Create(service, characteristic, value, text, decode).configuration == None
    ensures Create(service, characteristic, value, text, decode).errorText == Some(Parser.EmptyMessage)
  {
  }
}
