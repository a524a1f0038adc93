/**
 * The `/search_schemes` endpoint: a case-insensitive substring match of the
 * query against every scheme name, in the directory's order, cut to 20.
 * Case folding is ASCII only.
 */
module Search {
  import opened Wrappers
  import opened Upstream
  import opened SchemeCache

  /** At most this many matches are returned. */
  const MaxResults := 20

  function LowerChar(c: char): char {
    if 'A' <= c <= 'Z' then (c as int + 32) as char else c
  }

  function UpperChar(c: char): char {
    if 'a' <= c <= 'z' then (c as int - 32) as char else c
  }

  /** `s.lower()`, ASCII letters only. */
  function Lower(s: string): string {
    seq(|s|, i requires 0 <= i < |s| => LowerChar(s[i]))
  }

  /** `s.upper()`, ASCII letters only. */
  function Upper(s: string): string {
    seq(|s|, i requires 0 <= i < |s| => UpperChar(s[i]))
  }

  /** `needle` occurs in `hay` starting at position `k`. */
  ghost predicate OccursAt(hay: string, needle: string, k: int) {
    0 <= k && k + |needle| <= |hay| && hay[k..k + |needle|] == needle
  }

  /** Python's `needle in hay` for strings. */
  function Contains(hay: string, needle: string): bool
    decreases |hay|
  {
    needle <= hay || (hay != [] && Contains(hay[1..], needle))
  }

  lemma {:induction false} ContainsIff(hay: string, needle: string)
    ensures Contains(hay, needle) <==> exists k :: OccursAt(hay, needle, k)
    decreases |hay|
  {
    if needle <= hay {
      assert OccursAt(hay, needle, 0);
    } else if hay != [] {
      ContainsIff(hay[1..], needle);
      if Contains(hay[1..], needle) {
        var k :| OccursAt(hay[1..], needle, k);
        assert hay[1..][k..k + |needle|] == hay[k + 1..k + 1 + |needle|];
        assert OccursAt(hay, needle, k + 1);
      }
      if k :| OccursAt(hay, needle, k) && k > 0 {
        assert hay[1..][k - 1..k - 1 + |needle|] == hay[k..k + |needle|];
        assert OccursAt(hay[1..], needle, k - 1);
      }
    } else {
      assert forall k :: !OccursAt(hay, needle, k);
    }
  }

  /** Whether a directory entry is kept for the lower-cased query `q`. */
  predicate Matches(e: (SchemeId, string), q: string) {
    Contains(Lower(e.1), q)
  }

  /** The list comprehension of the endpoint before slicing: matching entries, in order. */
  function Filter(d: Directory, q: string): seq<(SchemeId, string)> {
    if d == [] then []
    else (if Matches(d[0], q) then [d[0]] else []) + Filter(d[1..], q)
  }

  /** The filter keeps exactly the matching entries ... */
  lemma {:induction false} FilterMembers(d: Directory, q: string, e: (SchemeId, string))
    ensures e in Filter(d, q) <==> e in d && Matches(e, q)
  {
    if d != [] {
      FilterMembers(d[1..], q, e);
      assert d == [d[0]] + d[1..];
    }
  }

  /** ... and keeps their order: filtering commutes with concatenation. */
  lemma {:induction false} FilterAppend(a: Directory, b: Directory, q: string)
    ensures Filter(a + b, q) == Filter(a, q) + Filter(b, q)
  {
    if a != [] {
      assert (a + b)[1..] == a[1..] + b;
      FilterAppend(a[1..], b, q);
    } else {
      assert a + b == b;
    }
  }

  /** Every name contains the empty string, so the empty query keeps everything. */
  lemma {:induction false} FilterEmptyQuery(d: Directory)
    ensures Filter(d, "") == d
  {
    if d != [] {
      FilterEmptyQuery(d[1..]);
    }
  }

  function Min(a: int, b: int): int {
    if a <= b then a else b
  }

  /**
   * The results of `search_schemes` over directory `d`: the `q` request
   * argument (absent means ""), lower-cased, matched against the lower-cased
   * names, the first 20 matches kept.
   */
  function SearchResults(q: Option<string>, d: Directory): (r: seq<(SchemeId, string)>)
    ensures |r| == Min(MaxResults, |Filter(d, Lower(q.GetOr("")))|)
    ensures r <= Filter(d, Lower(q.GetOr("")))
    ensures forall e :: e in r ==> e in d && Contains(Lower(e.1), Lower(q.GetOr("")))
  {
    var all := Filter(d, Lower(q.GetOr("")));
    var r := all[..Min(MaxResults, |all|)];
    assert forall e :: e in r ==> e in all;
    assert forall e :: e in all ==> e in d && Matches(e, Lower(q.GetOr(""))) by {
      forall e | e in all ensures e in d && Matches(e, Lower(q.GetOr(""))) {
        FilterMembers(d, Lower(q.GetOr("")), e);
      }
    }
    r
  }

  /** With at most 20 matches, every matching entry is returned. */
  lemma SearchComplete(q: Option<string>, d: Directory, e: (SchemeId, string))
    requires |Filter(d, Lower(q.GetOr("")))| <= MaxResults
    requires e in d && Contains(Lower(e.1), Lower(q.GetOr("")))
    ensures e in SearchResults(q, d)
  {
    FilterMembers(d, Lower(q.GetOr("")), e);
  }

  /** A missing or empty query returns the first 20 entries of the directory. */
  lemma SearchEmptyQuery(d: Directory)
    ensures SearchResults(None, d) == d[..Min(MaxResults, |d|)]
    ensures SearchResults(Some(""), d) == d[..Min(MaxResults, |d|)]
  {
    assert Lower("") == "";
    FilterEmptyQuery(d);
  }

  /** Lower-casing an upper-cased (or lower-cased) string is lower-casing it. */
  lemma LowerUpper(s: string)
    ensures Lower(Upper(s)) == Lower(s)
    ensures Lower(Lower(s)) == Lower(s)
  {
  }

  /** Queries that agree up to ASCII case give identical results. */
  lemma SearchCaseInsensitive(q: string, d: Directory)
    ensures SearchResults(Some(Upper(q)), d) == SearchResults(Some(q), d)
    ensures SearchResults(Some(Lower(q)), d) == SearchResults(Some(q), d)
  {
    LowerUpper(q);
  }

  /**
   * The `/search_schemes` handler: look the directory up in the cache (which
   * may refresh it) and search it.
   */
  method SearchSchemes(cache: Cache, q: Option<string>, now: real, reply: SchemeList, doneAt: real)
    returns (results: seq<(SchemeId, string)>)
    requires cache.Valid()
    modifies cache
    ensures cache.Valid()
    ensures cache.State() == Lookup(old(cache.State()), now, reply, doneAt).1
    ensures results == SearchResults(q, Lookup(old(cache.State()), now, reply, doneAt).0)
  {
    var schemes, _ := cache.GetAllSchemes(now, reply, doneAt);
    results := SearchResults(q, schemes);
  }
}
