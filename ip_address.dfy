/** A recognizer for textual IPv4 and IPv6 addresses, standing in for the
    address parser of the Go standard library. IPv4 is the dotted-decimal
    quad; IPv6 is the colon-hexadecimal text form of section 2.2 of RFC 4291,
    with at most one `::` and without an embedded IPv4 tail. */
module IpAddress {

  import opened Text

  datatype Family = V4 | V6

  /** One IPv4 field: one to three decimal digits with value at most 255. */
  predicate IsOctet(s: string) {
    1 <= |s| <= 3 && AllDigits(s) && DecimalValue(s) <= 255
  }

  predicate IsIPv4(s: string) {
    var fields := Split(s, '.');
    |fields| == 4 && forall i :: 0 <= i < 4 ==> IsOctet(fields[i])
  }

  /** One IPv6 field: one to four hexadecimal digits. */
  predicate IsHexGroup(s: string) {
    1 <= |s| <= 4 && AllHexDigits(s)
  }

  predicate AllHexGroups(groups: seq<string>) {
    forall i :: 0 <= i < |groups| ==> IsHexGroup(groups[i])
  }

  /** The colon-separated groups on one side of a `::`; an empty side has
      none. */
  function Groups(s: string): (g: seq<string>)
    ensures s != [] ==> |g| >= 1 && Join(g, ':') == s
  {
    if s == [] then [] else JoinSplit(s, ':'); Split(s, ':')
  }

  /** The position of the first `::` in `s`, if any. */
  function FirstDoubleColon(s: string): (r: Option<nat>)
    ensures r.Some? ==> r.value + 1 < |s| && s[r.value] == ':' && s[r.value + 1] == ':'
    ensures r.Some? ==> forall j :: 0 <= j < r.value ==> !(s[j] == ':' && s[j + 1] == ':')
    ensures r.None? ==> forall j :: 0 <= j < |s| - 1 ==> !(s[j] == ':' && s[j + 1] == ':')
  {
    if |s| < 2 then None
    else if s[0] == ':' && s[1] == ':' then Some(0)
    else match FirstDoubleColon(s[1..])
      case None => None
      case Some(k) => Some(k + 1)
  }

  /** Eight groups, or fewer than eight around the single `::` that stands
      for the missing ones. A second `::` leaves an empty group behind and
      is rejected. */
  predicate IsIPv6(s: string) {
    match FirstDoubleColon(s)
    case None =>
      var groups := Split(s, ':');
      |groups| == 8 && AllHexGroups(groups)
    case Some(i) =>
      var left, right := Groups(s[..i]), Groups(s[i + 2..]);
      AllHexGroups(left) && AllHexGroups(right) && |left| + |right| <= 7
  }

  predicate IsIP(s: string) {
    IsIPv4(s) || IsIPv6(s)
  }

  /** The prefix length of a single host of the family. */
  function HostPrefixLen(f: Family): nat {
    match f
    case V4 => 32
    case V6 => 128
  }

  /** An IPv4 literal consists of digits and dots only. */
  lemma IPv4Chars(s: string)
    requires IsIPv4(s)
    ensures forall k :: 0 <= k < |s| ==> IsDigit(s[k]) || s[k] == '.'
  {
    var fields := Split(s, '.');
    JoinSplit(s, '.');
    forall k | 0 <= k < |s| ensures IsDigit(s[k]) || s[k] == '.' {
      JoinMember(fields, '.', s[k]);
      if s[k] != '.' {
        var i :| 0 <= i < |fields| && s[k] in fields[i];
        assert IsOctet(fields[i]);
      }
    }
  }

  lemma IPv4HasDot(s: string)
    requires IsIPv4(s)
    ensures '.' in s
  {
    var fields := Split(s, '.');
    JoinSplit(s, '.');
    assert s == fields[0] + ['.'] + Join(fields[1..], '.');
    assert s[|fields[0]|] == '.';
  }

  lemma GroupsChars(s: string, x: char)
    requires AllHexGroups(Groups(s))
    requires x in s
    ensures IsHexDigit(x) || x == ':'
  {
    var g := Groups(s);
    JoinMember(g, ':', x);
    if x != ':' {
      var i :| 0 <= i < |g| && x in g[i];
      assert IsHexGroup(g[i]);
    }
  }

  /** An IPv6 literal consists of hexadecimal digits and colons only. */
  lemma IPv6Chars(s: string)
    requires IsIPv6(s)
    ensures forall k :: 0 <= k < |s| ==> IsHexDigit(s[k]) || s[k] == ':'
  {
    match FirstDoubleColon(s)
    case None =>
      forall k | 0 <= k < |s| ensures IsHexDigit(s[k]) || s[k] == ':' {
        GroupsChars(s, s[k]);
      }
    case Some(i) =>
      forall k | 0 <= k < |s| ensures IsHexDigit(s[k]) || s[k] == ':' {
        if k < i {
          assert s[k] in s[..i];
          GroupsChars(s[..i], s[k]);
        } else if k >= i + 2 {
          assert s[k] in s[i + 2..];
          GroupsChars(s[i + 2..], s[k]);
        }
      }
  }

  /** An address literal never contains the prefix-length separator, and
      the two families never overlap. */
  lemma AddressHasNoSlash(s: string)
    requires IsIP(s)
    ensures '/' !in s
    ensures !(IsIPv4(s) && IsIPv6(s))
  {
    if IsIPv4(s) {
      IPv4Chars(s);
      IPv4HasDot(s);
      if IsIPv6(s) {
        IPv6Chars(s);
      }
    } else {
      IPv6Chars(s);
    }
  }

  /** Text with neither dots nor colons is no address: digits alone do not
      make an IPv4 literal. */
  lemma NeedsSeparators(s: string)
    requires '.' !in s && ':' !in s
    ensures !IsIP(s)
  {
    SplitNoSeparator(s, '.');
    SplitNoSeparator(s, ':');
    assert forall k :: 0 <= k < |s| ==> s[k] != ':';
    assert FirstDoubleColon(s).None?;
  }

  /** The dotted quad text of four octet values. */
  function FormatIPv4(a: nat, b: nat, c: nat, d: nat): string {
    Join([ShowDecimal(a), ShowDecimal(b), ShowDecimal(c), ShowDecimal(d)], '.')
  }

  lemma OctetText(n: nat)
    requires n <= 255
    ensures IsOctet(ShowDecimal(n)) && '.' !in ShowDecimal(n)
  {
    ShowDecimalShort(n);
    ShowDecimalValue(n);
  }

  /** Every quad of values 0..255 prints as an address the recognizer
      accepts. */
  lemma FormatIPv4IsIPv4(a: nat, b: nat, c: nat, d: nat)
    requires a <= 255 && b <= 255 && c <= 255 && d <= 255
    ensures IsIPv4(FormatIPv4(a, b, c, d))
  {
    var fields := [ShowDecimal(a), ShowDecimal(b), ShowDecimal(c), ShowDecimal(d)];
    OctetText(a); OctetText(b); OctetText(c); OctetText(d);
    SplitJoin(fields, '.');
  }
}
