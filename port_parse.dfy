/** convertToPort: a decimal port literal becomes a 16-bit port number
    (the port fields of section 3.1 of RFC 793). */
module PortParse {

  import opened Text
  import opened Errors

  const MaxPort: nat := 65535

  type Port = n: nat | n <= MaxPort

  /** Base-10 unsigned parse; anything that is not a plain digit string, or
      a value above 65535, is rejected with the original literal. */
  function ConvertToPort(v: string): (r: Result<Port>)
    ensures r.Ok? <==> v != [] && AllDigits(v) && DecimalValue(v) <= MaxPort
    ensures r.Ok? ==> r.value == DecimalValue(v)
    ensures r.Err? ==> r.error == Error(InvalidPort, v)
  {
    match ParseDecimal(v)
    case None => Err(Error(InvalidPort, v))
    case Some(p) => if p <= MaxPort then Ok(p) else Err(Error(InvalidPort, v))
  }

  /** Every port, written in decimal, converts back to itself. */
  lemma PortRoundTrip(p: Port)
    ensures ConvertToPort(ShowDecimal(p)) == Ok(p)
  {
    ShowDecimalValue(p);
  }

  /** A number above 65535 is out of range, however it is written. */
  lemma OutOfRangeRejected(v: string)
    requires v != [] && AllDigits(v) && DecimalValue(v) > MaxPort
    ensures ConvertToPort(v) == Err(Error(InvalidPort, v))
  {
  }

  /** A sign is not part of a port literal, so negatives are rejected. */
  lemma SignedRejected(v: string)
    requires v != [] && v[0] == '-'
    ensures ConvertToPort(v) == Err(Error(InvalidPort, v))
  {
  }

  /** Every port error message starts with `invalid port <literal>:`. */
  lemma ErrorMessageNamesLiteral(v: string)
    requires ConvertToPort(v).Err?
    ensures StartsWith(MessagePrefix(ConvertToPort(v).error), "invalid port " + v + ":")
  {
  }

  // The rows of TestConvertToPort.

  lemma NegativePortRow()
    ensures ConvertToPort("-80") == Err(Error(InvalidPort, "-80"))
    ensures MessagePrefix(ConvertToPort("-80").error) == "invalid port -80:"
  {
    SignedRejected("-80");
  }

  lemma NonNumericPortRow()
    ensures ConvertToPort("xyz") == Err(Error(InvalidPort, "xyz"))
    ensures MessagePrefix(ConvertToPort("xyz").error) == "invalid port xyz:"
  {
    assert !IsDigit("xyz"[0]);
  }

  lemma PortTooLargeRow()
    ensures ConvertToPort("91234") == Err(Error(InvalidPort, "91234"))
    ensures MessagePrefix(ConvertToPort("91234").error) == "invalid port 91234:"
  {
    assert ShowDecimal(91234) == "91234";
    ShowDecimalValue(91234);
    OutOfRangeRejected("91234");
  }

  lemma ValidPortRow()
    ensures ConvertToPort("443") == Ok(443)
  {
    assert ShowDecimal(443) == "443";
    PortRoundTrip(443);
  }
}
