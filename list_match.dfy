/** Allow/deny list membership with one-sided glob patterns, as used for
    string-valued authorization attributes. */
module ListMatch {

  import opened Text

  /** Pattern `p` ends in `*` and `s` starts with the text before it. */
  predicate PrefixMatch(s: string, p: string) {
    |p| > 0 && p[|p| - 1] == '*' && StartsWith(s, p[..|p| - 1])
  }

  /** Pattern `p` starts with `*` and `s` ends with the text after it. */
  predicate SuffixMatch(s: string, p: string) {
    |p| > 0 && p[0] == '*' && EndsWith(s, p[1..])
  }

  /** One list entry accepts the candidate: verbatim, the lone `*`, a
      `prefix*` entry or a `*suffix` entry. */
  predicate EntryMatches(s: string, p: string) {
    s == p || p == "*" || PrefixMatch(s, p) || SuffixMatch(s, p)
  }

  /** stringMatch: true when some entry of `list` accepts `s`. */
  function StringMatch(s: string, list: seq<string>): (r: bool)
    ensures r <==> exists i :: 0 <= i < |list| && EntryMatches(s, list[i])
  {
    if list == [] then false
    else EntryMatches(s, list[0]) || StringMatch(s, list[1..])
  }

  /** A list that holds the candidate verbatim accepts it. */
  lemma ExactEntryMatches(s: string, list: seq<string>)
    requires s in list
    ensures StringMatch(s, list)
  {
    var i :| 0 <= i < |list| && list[i] == s;
    assert EntryMatches(s, list[i]);
  }

  /** A list that holds the lone `*` accepts every candidate. */
  lemma WildcardEntryMatches(s: string, list: seq<string>)
    requires "*" in list
    ensures StringMatch(s, list)
  {
    var i :| 0 <= i < |list| && list[i] == "*";
    assert EntryMatches(s, list[i]);
  }

  /** An entry `t*` accepts every candidate that starts with `t`. */
  lemma PrefixEntryMatches(s: string, t: string, list: seq<string>)
    requires t + "*" in list
    requires StartsWith(s, t)
    ensures StringMatch(s, list)
  {
    var p := t + "*";
    var i :| 0 <= i < |list| && list[i] == p;
    assert p[..|p| - 1] == t;
    assert EntryMatches(s, list[i]);
  }

  /** An entry `*t` accepts every candidate that ends with `t`. */
  lemma SuffixEntryMatches(s: string, t: string, list: seq<string>)
    requires "*" + t in list
    requires EndsWith(s, t)
    ensures StringMatch(s, list)
  {
    var p := "*" + t;
    var i :| 0 <= i < |list| && list[i] == p;
    assert p[1..] == t;
    assert EntryMatches(s, list[i]);
  }

  /** Without wildcards the list is plain membership: an entry that only
      contains the candidate as a substring does not match. */
  lemma NoWildcardIsMembership(s: string, list: seq<string>)
    requires forall i :: 0 <= i < |list| ==> '*' !in list[i]
    ensures StringMatch(s, list) <==> s in list
  {
    if StringMatch(s, list) {
      var i :| 0 <= i < |list| && EntryMatches(s, list[i]);
      var p := list[i];
      assert "*"[0] == '*';
      if |p| > 0 {
        assert p[|p| - 1] in p;
        assert p[0] in p;
      }
      assert s == p;
    } else if s in list {
      ExactEntryMatches(s, list);
    }
  }

  /** The result is the OR over the entries: splitting the list splits it. */
  lemma {:induction false} StringMatchAppend(s: string, a: seq<string>, b: seq<string>)
    ensures StringMatch(s, a + b) == (StringMatch(s, a) || StringMatch(s, b))
  {
    if a == [] {
      assert a + b == b;
    } else {
      StringMatchAppend(s, a[1..], b);
      assert (a + b)[1..] == a[1..] + b;
    }
  }

  /** Reordering the entries never changes the result. */
  lemma OrderIrrelevant(s: string, a: seq<string>, b: seq<string>)
    requires multiset(a) == multiset(b)
    ensures StringMatch(s, a) == StringMatch(s, b)
  {
    if StringMatch(s, a) {
      var i :| 0 <= i < |a| && EntryMatches(s, a[i]);
      assert a[i] in multiset(b);
      var j :| 0 <= j < |b| && b[j] == a[i];
    }
    if StringMatch(s, b) {
      var j :| 0 <= j < |b| && EntryMatches(s, b[j]);
      assert b[j] in multiset(a);
      var i :| 0 <= i < |a| && a[i] == b[j];
    }
  }

  // The rows of TestStringMatch.

  lemma ExactMatchRow()
    ensures StringMatch("product page", ["review page", "product page"])
  {
    ExactEntryMatches("product page", ["review page", "product page"]);
  }

  lemma WildcardMatchRow()
    ensures StringMatch("product page", ["review page", "*"])
  {
    WildcardEntryMatches("product page", ["review page", "*"]);
  }

  lemma PrefixMatchRow()
    ensures StringMatch("product page", ["review page", "product*"])
  {
    assert "product" + "*" == "product*";
    PrefixEntryMatches("product page", "product", ["review page", "product*"]);
  }

  lemma SuffixMatchRow()
    ensures StringMatch("product page", ["review page", "*page"])
  {
    assert "*" + "page" == "*page";
    SuffixEntryMatches("product page", "page", ["review page", "*page"]);
  }

  lemma NotMatchedRow()
    ensures !StringMatch("product page", ["review page", "xyz product page"])
  {
    var list := ["review page", "xyz product page"];
    forall i | 0 <= i < |list| ensures '*' !in list[i] { }
    NoWildcardIsMembership("product page", list);
  }
}
