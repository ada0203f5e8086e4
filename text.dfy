/** String helpers the converters are built on: splitting on a separator
    character and decimal / hexadecimal digit strings. */
module Text {

  /** Splits `s` at every occurrence of `c`; like Go's strings.Split, an
      empty string gives one empty part and adjacent separators give an
      empty part between them. */
  function Split(s: string, c: char): (parts: seq<string>)
    ensures |parts| >= 1
    ensures forall i :: 0 <= i < |parts| ==> c !in parts[i]
  {
    if s == [] then [""]
    else
      var rest := Split(s[1..], c);
      if s[0] == c then [""] + rest
      else [[s[0]] + rest[0]] + rest[1..]
  }

  /** Glues the parts back together with `c` between neighbours. */
  function Join(parts: seq<string>, c: char): string
    requires |parts| >= 1
  {
    if |parts| == 1 then parts[0] else parts[0] + [c] + Join(parts[1..], c)
  }

  /** Splitting a concatenation at a separator splits each side. */
  lemma {:induction false} SplitAppend(x: string, c: char, y: string)
    ensures Split(x + [c] + y, c) == Split(x, c) + Split(y, c)
  {
    var s := x + [c] + y;
    if x == [] {
      assert s[0] == c && s[1..] == y;
    } else {
      assert s[0] == x[0] && s[1..] == x[1..] + [c] + y;
      SplitAppend(x[1..], c, y);
      SplitUnfold(s, c);
      SplitUnfold(x, c);
    }
  }

  /** Two separators make at least three parts. */
  lemma SplitTwoSeparators(a: string, b: string, d: string, c: char)
    ensures |Split(a + [c] + b + [c] + d, c)| >= 3
  {
    SplitAppend(a + [c] + b, c, d);
    SplitAppend(a, c, b);
  }

  /** One step of Split, stated on its own so that callers need not unfold
      the definition. */
  lemma SplitUnfold(s: string, c: char)
    requires s != []
    ensures s[0] == c ==> Split(s, c) == [""] + Split(s[1..], c)
    ensures s[0] != c ==> Split(s, c) == [[s[0]] + Split(s[1..], c)[0]] + Split(s[1..], c)[1..]
  {
  }

  /** A string without the separator is one part. */
  lemma {:induction false} SplitNoSeparator(s: string, c: char)
    requires c !in s
    ensures Split(s, c) == [s]
  {
    if s != [] {
      SplitNoSeparator(s[1..], c);
      assert [s[0]] + s[1..] == s;
    }
  }

  /** Joining the parts of a split gives back the string. */
  lemma {:induction false} JoinSplit(s: string, c: char)
    ensures Join(Split(s, c), c) == s
  {
    if s != [] {
      JoinSplit(s[1..], c);
      var rest := Split(s[1..], c);
      if s[0] == c {
        assert Split(s, c)[1..] == rest;
      } else {
        var parts := Split(s, c);
        if |rest| == 1 {
          assert parts == [[s[0]] + rest[0]];
        } else {
          assert parts[1..] == rest[1..];
          assert Join(rest, c) == rest[0] + [c] + Join(rest[1..], c);
        }
      }
    }
  }

  /** Splitting a join of separator-free parts gives back the parts. */
  lemma {:induction false} SplitJoin(parts: seq<string>, c: char)
    requires |parts| >= 1
    requires forall i :: 0 <= i < |parts| ==> c !in parts[i]
    ensures Split(Join(parts, c), c) == parts
  {
    if |parts| == 1 {
      SplitNoSeparator(parts[0], c);
    } else {
      SplitJoin(parts[1..], c);
      SplitNoSeparator(parts[0], c);
      SplitAppend(parts[0], c, Join(parts[1..], c));
    }
  }

  /** Every character of a join is the separator or comes from a part. */
  lemma {:induction false} JoinMember(parts: seq<string>, c: char, x: char)
    requires |parts| >= 1
    requires x in Join(parts, c)
    ensures x == c || exists i :: 0 <= i < |parts| && x in parts[i]
  {
    if |parts| > 1 && x !in parts[0] && x != c {
      JoinMember(parts[1..], c, x);
      var i :| 0 <= i < |parts[1..]| && x in parts[1..][i];
      assert x in parts[i + 1];
    }
  }

  /** The number of parts is one more than the number of separators. */
  lemma {:induction false} SplitCount(s: string, c: char)
    ensures |Split(s, c)| == multiset(s)[c] + 1
  {
    if s != [] {
      SplitCount(s[1..], c);
      assert s == [s[0]] + s[1..];
      assert multiset(s) == multiset([s[0]]) + multiset(s[1..]);
    }
  }

  /** `s` starts with `p`. */
  predicate StartsWith(s: string, p: string) {
    |p| <= |s| && s[..|p|] == p
  }

  /** `s` ends with `p`. */
  predicate EndsWith(s: string, p: string) {
    |p| <= |s| && s[|s| - |p|..] == p
  }

  predicate IsDigit(ch: char) {
    '0' <= ch <= '9'
  }

  predicate AllDigits(s: string) {
    forall i :: 0 <= i < |s| ==> IsDigit(s[i])
  }

  predicate IsHexDigit(ch: char) {
    IsDigit(ch) || 'a' <= ch <= 'f' || 'A' <= ch <= 'F'
  }

  predicate AllHexDigits(s: string) {
    forall i :: 0 <= i < |s| ==> IsHexDigit(s[i])
  }

  function DigitValue(ch: char): (d: nat)
    requires IsDigit(ch)
    ensures d < 10
  {
    ch as int - '0' as int
  }

  function DigitChar(d: nat): (ch: char)
    requires d < 10
    ensures IsDigit(ch) && DigitValue(ch) == d
  {
    ('0' as int + d) as char
  }

  /** The value of a string of decimal digits, most significant first. */
  function DecimalValue(s: string): nat
    requires AllDigits(s)
  {
    if s == [] then 0
    else DecimalValue(s[..|s| - 1]) * 10 + DigitValue(s[|s| - 1])
  }

  /** Base-10 parse of an unsigned integer: no sign, no spaces, no empty
      string. */
  function ParseDecimal(s: string): (r: Option<nat>)
    ensures r.Some? <==> s != [] && AllDigits(s)
  {
    if s != [] && AllDigits(s) then Some(DecimalValue(s)) else None
  }

  /** The shortest decimal text of `n`. */
  function ShowDecimal(n: nat): (s: string)
    ensures s != [] && AllDigits(s)
  {
    if n < 10 then [DigitChar(n)] else ShowDecimal(n / 10) + [DigitChar(n % 10)]
  }

  /** Printing then parsing a number gives it back. */
  lemma {:induction false} ParseShowDecimal(n: nat)
    ensures ParseDecimal(ShowDecimal(n)) == Some(n)
  {
    ShowDecimalValue(n);
  }

  /** Numbers below 256 print with at most three digits. */
  lemma ShowDecimalShort(n: nat)
    requires n < 256
    ensures |ShowDecimal(n)| <= 3
  {
    if n >= 10 {
      assert |ShowDecimal(n / 10)| <= 2 by {
        if n / 10 >= 10 { assert n / 10 / 10 < 10; }
      }
    }
  }

  lemma {:induction false} ShowDecimalValue(n: nat)
    ensures DecimalValue(ShowDecimal(n)) == n
  {
    var s := ShowDecimal(n);
    if n < 10 {
      assert s[..0] == [];
    } else {
      ShowDecimalValue(n / 10);
      assert s[..|s| - 1] == ShowDecimal(n / 10);
    }
  }

  datatype Option<+T> = None | Some(value: T)
}
