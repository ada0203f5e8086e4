/** convertToCidr: an address or CIDR literal (section 3.1 of RFC 4632,
    section 2.3 of RFC 4291) becomes an address prefix and a prefix length. */
module AddressRange {

  import opened Text
  import opened Errors
  import opened IpAddress

  /** The proxy's CIDR range: the address text and the prefix length. */
  datatype CidrRange = CidrRange(addressPrefix: string, prefixLen: nat)

  /** Split on `/`; more than one `/`, or a length that is not a plain
      decimal number, is a malformed range; an address part that is not an
      IPv4 or IPv6 literal is an invalid address; without a `/` the length
      is that of a single host of the address's family. */
  function ConvertToCidr(v: string): (r: Result<CidrRange>)
    ensures r.Ok? ==> IsIP(r.value.addressPrefix) && StartsWith(v, r.value.addressPrefix)
    ensures r.Err? ==> r.error.literal == v && r.error.kind != InvalidPort
  {
    var parts := Split(v, '/');
    if |parts| > 2 then Err(Error(InvalidCidrRange, v))
    else if |parts| == 2 then
      match ParseDecimal(parts[1])
      case None => Err(Error(InvalidCidrRange, v))
      case Some(n) =>
        if IsIP(parts[0]) then
          JoinSplit(v, '/');
          assert v == parts[0] + ['/'] + parts[1];
          Ok(CidrRange(parts[0], n))
        else Err(Error(InvalidIpAddress, v))
    else
      if IsIPv4(v) then Ok(CidrRange(v, HostPrefixLen(V4)))
      else if IsIPv6(v) then Ok(CidrRange(v, HostPrefixLen(V6)))
      else Err(Error(InvalidIpAddress, v))
  }

  /** A literal without `/` is an address alone: accepted exactly when it is
      IPv4 or IPv6, kept as written, with length 32 or 128. */
  lemma WithoutSlash(v: string)
    requires '/' !in v
    ensures ConvertToCidr(v) ==
      if IsIPv4(v) then Ok(CidrRange(v, 32))
      else if IsIPv6(v) then Ok(CidrRange(v, 128))
      else Err(Error(InvalidIpAddress, v))
  {
    SplitNoSeparator(v, '/');
  }

  /** A literal with one `/`: the length must be a decimal number (so no
      sign and no empty length), then the address must be IPv4 or IPv6; the
      address text and the number are returned unchanged. */
  lemma WithOneSlash(a: string, l: string)
    requires '/' !in a && '/' !in l
    ensures ConvertToCidr(a + "/" + l) ==
      if l == [] || !AllDigits(l) then Err(Error(InvalidCidrRange, a + "/" + l))
      else if IsIP(a) then Ok(CidrRange(a, DecimalValue(l)))
      else Err(Error(InvalidIpAddress, a + "/" + l))
  {
    SplitAppend(a, '/', l);
    SplitNoSeparator(a, '/');
    SplitNoSeparator(l, '/');
  }

  /** Two or more `/` always make a malformed range. */
  lemma ManySlashes(v: string)
    requires multiset(v)['/'] >= 2
    ensures ConvertToCidr(v) == Err(Error(InvalidCidrRange, v))
  {
    SplitCount(v, '/');
  }

  /** A converted range, written back as `address/length`, converts to
      itself. */
  lemma Reparse(v: string, c: CidrRange)
    requires ConvertToCidr(v) == Ok(c)
    ensures ConvertToCidr(c.addressPrefix + "/" + ShowDecimal(c.prefixLen)) == Ok(c)
  {
    var digits := ShowDecimal(c.prefixLen);
    AddressHasNoSlash(c.addressPrefix);
    assert forall k :: 0 <= k < |digits| ==> digits[k] != '/';
    ShowDecimalValue(c.prefixLen);
    WithOneSlash(c.addressPrefix, digits);
  }

  // The rows of TestConvertToCidr. Each literal is written as the
  // concatenation of its address and length parts.

  /** "192.168.0.0//16" */
  lemma TwoSlashesRow()
    ensures ConvertToCidr("192.168.0.0" + "/" + "/16") ==
      Err(Error(InvalidCidrRange, "192.168.0.0" + "/" + "/16"))
    ensures MessagePrefix(ConvertToCidr("192.168.0.0" + "/" + "/16").error) == "invalid cidr range"
  {
    assert "192.168.0.0" + "/" + "/16" == "192.168.0.0" + ['/'] + "" + ['/'] + "16";
    SplitTwoSeparators("192.168.0.0", "", "16", '/');
  }

  /** "192.168.0.0/ab" */
  lemma NonNumericLengthRow()
    ensures ConvertToCidr("192.168.0.0" + "/" + "ab") ==
      Err(Error(InvalidCidrRange, "192.168.0.0" + "/" + "ab"))
    ensures MessagePrefix(ConvertToCidr("192.168.0.0" + "/" + "ab").error) == "invalid cidr range"
  {
    assert !IsDigit("ab"[0]);
    WithOneSlash("192.168.0.0", "ab");
  }

  /** "192.168.0.0/-16" */
  lemma NegativeLengthRow()
    ensures ConvertToCidr("192.168.0.0" + "/" + "-16") ==
      Err(Error(InvalidCidrRange, "192.168.0.0" + "/" + "-16"))
    ensures MessagePrefix(ConvertToCidr("192.168.0.0" + "/" + "-16").error) == "invalid cidr range"
  {
    assert !IsDigit("-16"[0]);
    WithOneSlash("192.168.0.0", "-16");
  }

  lemma DottedQuadText()
    ensures FormatIPv4(192, 168, 0, 0) == "192.168.0.0"
  {
    assert ShowDecimal(192) == "192" by { assert ShowDecimal(19) == "19"; }
    assert ShowDecimal(168) == "168" by { assert ShowDecimal(16) == "16"; }
    assert ShowDecimal(0) == "0";
  }

  lemma DottedQuadIsIPv4()
    ensures IsIPv4("192.168.0.0")
  {
    DottedQuadText();
    FormatIPv4IsIPv4(192, 168, 0, 0);
  }

  /** "192.168.0.0/16" */
  lemma ValidRangeRow()
    ensures ConvertToCidr("192.168.0.0" + "/" + "16") == Ok(CidrRange("192.168.0.0", 16))
  {
    DottedQuadIsIPv4();
    WithOneSlash("192.168.0.0", "16");
    assert DecimalValue("16") == 16 by { assert "16"[..1] == "1"; }
  }

  /** "19216800" */
  lemma InvalidAddressRow()
    ensures ConvertToCidr("19216800") == Err(Error(InvalidIpAddress, "19216800"))
    ensures MessagePrefix(ConvertToCidr("19216800").error) == "invalid ip address"
  {
    var v := "19216800";
    assert forall k :: 0 <= k < |v| ==> IsDigit(v[k]);
    assert '.' !in v && ':' !in v && '/' !in v;
    NeedsSeparators(v);
    WithoutSlash(v);
  }

  /** "192.168.0.0" */
  lemma IPv4AddressRow()
    ensures ConvertToCidr("192.168.0.0") == Ok(CidrRange("192.168.0.0", 32))
  {
    DottedQuadIsIPv4();
    WithoutSlash("192.168.0.0");
  }

  lemma IPv6LiteralGroups()
    ensures Groups("2001:abcd:85a3") == ["2001", "abcd", "85a3"]
    ensures Groups("8a2e:370:1234") == ["8a2e", "370", "1234"]
  {
    assert "2001:abcd:85a3" == Join(["2001", "abcd", "85a3"], ':');
    SplitJoin(["2001", "abcd", "85a3"], ':');
    assert "8a2e:370:1234" == Join(["8a2e", "370", "1234"], ':');
    SplitJoin(["8a2e", "370", "1234"], ':');
  }

  lemma IPv6LiteralHexGroups()
    ensures AllHexGroups(["2001", "abcd", "85a3"]) && AllHexGroups(["8a2e", "370", "1234"])
  {
    assert IsHexGroup("2001") && IsHexGroup("abcd") && IsHexGroup("85a3");
    assert IsHexGroup("8a2e") && IsHexGroup("370") && IsHexGroup("1234");
  }

  lemma IPv6LiteralEllipsis()
    ensures FirstDoubleColon("2001:abcd:85a3" + "::" + "8a2e:370:1234") == Some(14)
  {
    var v := "2001:abcd:85a3" + "::" + "8a2e:370:1234";
    assert v[14] == ':' && v[15] == ':';
    assert forall j :: 0 <= j < 14 ==> v[j] != ':' || v[j + 1] != ':';
  }

  /** "2001:abcd:85a3::8a2e:370:1234" */
  lemma IPv6LiteralIsIPv6()
    ensures IsIPv6("2001:abcd:85a3" + "::" + "8a2e:370:1234")
  {
    var left, right := "2001:abcd:85a3", "8a2e:370:1234";
    var v := left + "::" + right;
    assert v[..14] == left && v[16..] == right;
    IPv6LiteralEllipsis();
    IPv6LiteralGroups();
    IPv6LiteralHexGroups();
  }

  /** "2001:abcd:85a3::8a2e:370:1234" */
  lemma IPv6AddressRow()
    ensures ConvertToCidr("2001:abcd:85a3" + "::" + "8a2e:370:1234") ==
      Ok(CidrRange("2001:abcd:85a3" + "::" + "8a2e:370:1234", 128))
  {
    var v := "2001:abcd:85a3" + "::" + "8a2e:370:1234";
    IPv6LiteralIsIPv6();
    AddressHasNoSlash(v);
    WithoutSlash(v);
  }
}
