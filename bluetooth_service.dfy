// `BluetoothService.getGattErrorMessage`: the text shown for a GATT status
// code. The named codes are Android's `BluetoothGatt` constants (the ATT
// error codes of the Bluetooth Core Specification, Vol 3, Part F, section
// 3.4.1.1, plus Android's own), 0x16 (connection terminated by the local
// host), and the app's negative codes from the connection service.
module BluetoothService {
  import opened Bytes
  import opened Outcomes
  import Parser = DescriptorConfigurationParser
  import Digits = DecimalDigits

  const GattSuccess := 0
  const GattReadNotPermitted := 0x02
  const GattWriteNotPermitted := 0x03
  const GattInsufficientAuthentication := 0x05
  const GattRequestNotSupported := 0x06
  const GattInsufficientEncryption := 0x0F
  const GattInvalidOffset := 0x07
  const GattInsufficientAuthorization := 0x08
  const GattInvalidAttributeLength := 0x0D
  const GattConnectionCongested := 0x8F
  const GattConnectionTimeout := 0x93
  const GattFailure := 0x101
  const GattConnTerminateLocalHost := 0x16

  // The connection service's own codes.
  const No2902Descriptor := -1
  const NoPropertyRead := -2
  const DescriptorReadFailed := -3
  const NoPropertyWrite := -4
  const WriteError := -5
  const UnknownError := -6
  const NotConnected := -7

  const UnknownPrefix := "Unknown GATT Error (status: "

  /** Kotlin's `Int.toString()`: an optional '-' and decimal digits. */
  function IntToString(n: int): (s: string)
    ensures s != []
  {
    if n < 0 then "-" + Parser.ToDecimal(-n) else Parser.ToDecimal(n)
  }

  /** The `when` branches of getGattErrorMessage, in order. */
  const Messages: seq<(int, string)> := [
    (GattSuccess, "GATT Success"),
    (GattReadNotPermitted, "GATT Read Not Permitted"),
    (GattWriteNotPermitted, "GATT Write Not Permitted"),
    (GattInsufficientAuthentication, "GATT Insufficient Authentication"),
    (GattRequestNotSupported, "GATT Request Not Supported"),
    (GattInsufficientEncryption, "GATT Insufficient Encryption"),
    (GattInvalidOffset, "GATT Invalid Offset"),
    (GattInsufficientAuthorization, "GATT Insufficient Authorization"),
    (GattInvalidAttributeLength, "GATT Invalid Attribute Length"),
    (GattConnectionCongested, "GATT Connection Congested"),
    (GattConnectionTimeout, "GATT Connection Timeout"),
    (GattFailure, "GATT Failure"),
    (GattConnTerminateLocalHost, "GATT Connection Terminated due to Local Host"),
    (No2902Descriptor, "Descriptor 2902 is Missing"),
    (DescriptorReadFailed, "Descriptor Read Failed"),
    (NoPropertyRead, "Characteristic does not have Read Property"),
    (NoPropertyWrite, "Characteristic does not have Write Property"),
    (WriteError, "Write Error"),
    (UnknownError, "Unknown Error"),
    (NotConnected, "Not Connected")
  ]

  /** The status codes with a message of their own. */
  const Named: set<int> := set i | 0 <= i < |Messages| :: Messages[i].0

  /** The message of the first branch whose status matches. */
  function MessageFor(t: seq<(int, string)>, status: int): (r: Option<string>)
    ensures r.None? <==> forall i :: 0 <= i < |t| ==> t[i].0 != status
    ensures r.Some? ==> exists i :: 0 <= i < |t| && t[i] == (status, r.value)
  {
    if t == [] then None
    else if t[0].0 == status then Some(t[0].1)
    else
      var r := MessageFor(t[1..], status);
      assert r.Some? ==> exists i :: 1 <= i < |t| && t[i] == (status, r.value) by {
        if r.Some? {
          var i :| 0 <= i < |t[1..]| && t[1..][i] == (status, r.value);
          assert t[i + 1] == (status, r.value);
        }
      }
      r
  }

  /** The status of the first branch whose message matches. */
  function StatusFor(t: seq<(int, string)>, m: string): (r: Option<int>)
    ensures r.None? <==> forall i :: 0 <= i < |t| ==> t[i].1 != m
  {
    if t == [] then None
    else if t[0].1 == m then Some(t[0].0)
    else StatusFor(t[1..], m)
  }

  /** With distinct messages, an entry's message leads back to its status. */
  lemma {:induction false} StatusForEntry(t: seq<(int, string)>, i: int)
    requires 0 <= i < |t|
    requires forall j, k :: 0 <= j < k < |t| ==> t[j].1 != t[k].1
    ensures StatusFor(t, t[i].1) == Some(t[i].0)
  {
    if i > 0 {
      StatusForEntry(t[1..], i - 1);
    }
  }

  lemma {:induction false} MessagesTable()
    ensures forall i :: 0 <= i < |Messages| ==> |Messages[i].1| < |UnknownPrefix| || Messages[i].1[0] != 'U'
    ensures forall j, k :: 0 <= j < k < |Messages| ==> Messages[j].1 != Messages[k].1
    ensures forall i :: 0 <= i < |Messages| ==> -7 <= Messages[i].0 <= 0x101
  {
  }

  function GattErrorMessage(status: Int32): (m: string)
  {
    match MessageFor(Messages, status)
    case Some(m) => m
    case None => UnknownPrefix + IntToString(status) + ")"
  }

  /** Reads a status back from a message: the inverse of GattErrorMessage. */
  function StatusOf(m: string): Option<int>
  {
    if |m| > |UnknownPrefix| + 1 && m[..|UnknownPrefix|] == UnknownPrefix && m[|m| - 1] == ')' then
      var digits := m[|UnknownPrefix|..|m| - 1];
      if digits[0] == '-' && Digits.AllDigits(digits[1..]) then Some(0 - Digits.DigitsValue(digits[1..]) as int)
      else if Digits.AllDigits(digits) then Some(Digits.DigitsValue(digits))
      else None
    else StatusFor(Messages, m)
  }

  /** The message determines the status: every status, named or not, reads
      back from its message, so no two statuses share a message. */
  lemma {:induction false} MessageDeterminesStatus(status: Int32)
    ensures StatusOf(GattErrorMessage(status)) == Some(status)
  {
    if MessageFor(Messages, status).Some? {
      NamedStatusReadsBack(status);
    } else {
      UnknownStatusReadsBack(status);
    }
  }

  /** A named status reads back through the table. */
  lemma {:induction false} NamedStatusReadsBack(status: int)
    requires MessageFor(Messages, status).Some?
    ensures StatusOf(MessageFor(Messages, status).value) == Some(status)
  {
    MessagesTable();
    var m := MessageFor(Messages, status).value;
    var i :| 0 <= i < |Messages| && Messages[i] == (status, m);
    StatusForEntry(Messages, i);
    assert !(|m| > |UnknownPrefix| + 1 && m[..|UnknownPrefix|] == UnknownPrefix) by {
      if |m| >= |UnknownPrefix| {
        assert m[0] != UnknownPrefix[0];
      }
    }
  }

  /** Any other status reads back from the decimal digits of its message. */
  lemma {:induction false} UnknownStatusReadsBack(status: int)
    ensures StatusOf(UnknownPrefix + IntToString(status) + ")") == Some(status)
  {
    var d := IntToString(status);
    var m := UnknownPrefix + d + ")";
    assert m[..|UnknownPrefix|] == UnknownPrefix;
    assert m[|UnknownPrefix|..|m| - 1] == d;
    assert m[|m| - 1] == ')';
    DecimalReadsBack(status);
  }

  /** `IntToString` is read back by its sign and digits. */
  lemma {:induction false} DecimalReadsBack(n: int)
    ensures var d := IntToString(n);
      if d[0] == '-' then Digits.AllDigits(d[1..]) && 0 - Digits.DigitsValue(d[1..]) as int == n
      else Digits.AllDigits(d) && Digits.DigitsValue(d) == n
  {
    if n < 0 {
      Parser.DigitsOfDecimal(-n);
      assert IntToString(n)[1..] == Parser.ToDecimal(-n);
    } else {
      Parser.DigitsOfDecimal(n);
      assert Digits.IsDigit(Parser.ToDecimal(n)[0]);
    }
  }

  lemma {:induction false} MessagesAreDistinct(a: Int32, b: Int32)
    requires a != b
    ensures GattErrorMessage(a) != GattErrorMessage(b)
  {
    MessageDeterminesStatus(a);
    MessageDeterminesStatus(b);
  }

  /** A status outside the table's range gets the generic message. */
  lemma {:induction false} UnnamedMessage(status: Int32)
    requires status < -7 || 0x101 < status
    ensures GattErrorMessage(status) == UnknownPrefix + IntToString(status) + ")"
  {
    MessagesTable();
  }

  /** The branches chosen for a few statuses, named and unnamed. */
  lemma {:induction false} MessageExamples()
    ensures GattErrorMessage(0) == "GATT Success"
    ensures GattErrorMessage(0x1234) == "Unknown GATT Error (status: 4660)"
    ensures GattErrorMessage(-8) == "Unknown GATT Error (status: -8)"
  {
    assert MessageFor(Messages, 0) == Some("GATT Success");
    UnnamedMessage(0x1234);
    UnnamedMessage(-8);
    DecimalExamples();
  }

  lemma {:induction false} DecimalExamples()
    ensures IntToString(0x1234) == "4660" && IntToString(-8) == "-8"
  {
    assert Parser.ToDecimal(4) == "4";
    assert Parser.ToDecimal(46) == "46";
    assert Parser.ToDecimal(466) == "466";
    assert Parser.ToDecimal(4660) == "4660";
    assert Parser.ToDecimal(8) == "8";
  }
}
