/** convertToHeaderMatcher: a header value pattern becomes an exact or an
    anchored regular-expression header matcher. */
module HeaderMatch {

  import opened Text

  datatype MatchSpec = Exact(value: string) | Regex(pattern: string)

  /** The proxy's header matcher: the header name and how its value is
      compared. */
  datatype HeaderMatcher = HeaderMatcher(name: string, spec: MatchSpec)

  /** The pattern has a `*` at its start or at its end. */
  predicate HasEdgeWildcard(v: string) {
    |v| > 0 && (v[0] == '*' || v[|v| - 1] == '*')
  }

  /** Drops the run of `*` at the start. */
  function TrimLeadingStars(s: string): (r: string)
    ensures |r| <= |s| && r == s[|s| - |r|..]
    ensures forall i :: 0 <= i < |s| - |r| ==> s[i] == '*'
    ensures r == [] || r[0] != '*'
  {
    if s != [] && s[0] == '*' then TrimLeadingStars(s[1..]) else s
  }

  /** Drops the run of `*` at the end. */
  function TrimTrailingStars(s: string): (r: string)
    ensures |r| <= |s| && r == s[..|r|]
    ensures forall i :: |r| <= i < |s| ==> s[i] == '*'
    ensures r == [] || r[|r| - 1] != '*'
  {
    if s != [] && s[|s| - 1] == '*' then TrimTrailingStars(s[..|s| - 1]) else s
  }

  /** The literal text between the leading and the trailing wildcards: a
      slice of the pattern with only `*` around it and no `*` at its ends. */
  function LiteralMiddle(v: string): (m: string)
    ensures !HasEdgeWildcard(m)
    ensures exists i, j ::
              && 0 <= i <= j <= |v| && m == v[i..j]
              && (forall k :: 0 <= k < i ==> v[k] == '*')
              && (forall k :: j <= k < |v| ==> v[k] == '*')
  {
    var l := TrimLeadingStars(v);
    var m := TrimTrailingStars(l);
    var i := |v| - |l|;
    assert m == v[i..i + |m|];
    m
  }

  /** The characters a regular expression gives a meaning of its own. */
  const RegexMetachars: string := "\\.+*?()|[]{}^$"

  /** Puts a backslash before every metacharacter. Removing the backslashes
      gives the text back, and text without metacharacters is unchanged. */
  function QuoteMeta(s: string): string {
    if s == [] then []
    else (if s[0] in RegexMetachars then ['\\', s[0]] else [s[0]]) + QuoteMeta(s[1..])
  }

  /** Drops the escaping backslashes that QuoteMeta adds. */
  function Unquote(q: string): string {
    if q == [] then []
    else if |q| >= 2 && q[0] == '\\' then [q[1]] + Unquote(q[2..])
    else [q[0]] + Unquote(q[1..])
  }

  /** Escaping loses nothing: the literal text can be read back. */
  lemma {:induction false} UnquoteQuoteMeta(s: string)
    ensures Unquote(QuoteMeta(s)) == s
  {
    if s != [] {
      UnquoteQuoteMeta(s[1..]);
      var q := QuoteMeta(s);
      if s[0] in RegexMetachars {
        assert q[2..] == QuoteMeta(s[1..]);
      } else {
        assert s[0] != '\\';
        assert q[1..] == QuoteMeta(s[1..]);
      }
    }
  }

  /** Text without metacharacters is left as it is, and only such text. */
  lemma {:induction false} QuoteMetaUnchanged(s: string)
    ensures QuoteMeta(s) == s <==> forall i :: 0 <= i < |s| ==> s[i] !in RegexMetachars
  {
    if s != [] {
      QuoteMetaUnchanged(s[1..]);
      QuoteMetaLength(s[1..]);
      if s[0] !in RegexMetachars {
        assert s == [s[0]] + s[1..];
        assert (forall i :: 0 <= i < |s| ==> s[i] !in RegexMetachars)
          <==> (forall i :: 0 <= i < |s[1..]| ==> s[1..][i] !in RegexMetachars);
      }
    }
  }

  lemma {:induction false} QuoteMetaLength(s: string)
    ensures |QuoteMeta(s)| >= |s|
  {
    if s != [] {
      QuoteMetaLength(s[1..]);
    }
  }

  /** The literal text a `^.*<escaped>.*$` pattern stands for, if it has that
      shape. */
  function RegexLiteral(p: string): Option<string> {
    if |p| >= 6 && p[..3] == "^.*" && p[|p| - 3..] == ".*$" then Some(Unquote(p[3..|p| - 3]))
    else None
  }

  /** The anchored pattern that accepts any value containing `m`. */
  function ContainsRegex(m: string): (p: string)
    ensures RegexLiteral(p) == Some(m)
  {
    var q := QuoteMeta(m);
    var p := "^.*" + q + ".*$";
    assert p[..3] == "^.*" && p[|p| - 3..] == ".*$" && p[3..|p| - 3] == q;
    UnquoteQuoteMeta(m);
    p
  }

  /** An exact matcher when the pattern has no `*` at either end; otherwise
      the regex `^.*<middle>.*$` with the literal middle escaped. The header
      name is kept either way. */
  function ConvertToHeaderMatcher(k: string, v: string): (h: HeaderMatcher)
    ensures h.name == k
    ensures h.spec.Exact? <==> !HasEdgeWildcard(v)
    ensures h.spec.Exact? ==> h.spec.value == v
    ensures h.spec.Regex? ==> RegexLiteral(h.spec.pattern) == Some(LiteralMiddle(v))
  {
    if HasEdgeWildcard(v) then HeaderMatcher(k, Regex(ContainsRegex(LiteralMiddle(v))))
    else HeaderMatcher(k, Exact(v))
  }

  /** A pattern `*m*` whose middle has no wildcard at its ends gives the
      regex built from `m`; when `m` has no metacharacters, that is
      `^.*m.*$` verbatim. */
  lemma WrappedPattern(k: string, m: string)
    requires !HasEdgeWildcard(m)
    ensures ConvertToHeaderMatcher(k, "*" + m + "*") == HeaderMatcher(k, Regex(ContainsRegex(m)))
    ensures (forall i :: 0 <= i < |m| ==> m[i] !in RegexMetachars) ==>
      ConvertToHeaderMatcher(k, "*" + m + "*") == HeaderMatcher(k, Regex("^.*" + m + ".*$"))
  {
    var v := "*" + m + "*";
    assert v[1..] == m + "*";
    if m == [] {
      assert TrimLeadingStars(v) == [];
    } else {
      assert TrimLeadingStars(v) == m + "*";
      assert (m + "*")[..|m|] == m;
    }
    QuoteMetaUnchanged(m);
  }

  // The rows of TestConvertToHeaderMatcher.

  lemma ExactMatchRow()
    ensures ConvertToHeaderMatcher(":path", "/productpage") == HeaderMatcher(":path", Exact("/productpage"))
  {
  }

  lemma RegexMatchRow()
    ensures ConvertToHeaderMatcher(":path", "*" + "/productpage" + "*") ==
      HeaderMatcher(":path", Regex("^.*" + "/productpage" + ".*$"))
  {
    var m := "/productpage";
    assert forall i :: 0 <= i < |m| ==> m[i] !in RegexMetachars;
    WrappedPattern(":path", m);
  }
}
