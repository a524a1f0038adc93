/**
 * The process-wide scheme directory cache behind `get_all_schemes`: an
 * optional directory and the time it was last fetched.  It is refreshed
 * from the provider's list-all call when it has never been filled or when
 * more than an hour has passed; otherwise it is returned untouched.
 *
 * `get_all_schemes` reads the clock for the age check only when a directory
 * is present (the `or` short-circuits), and again after a fetch, for the
 * stored timestamp.  Both readings, and the reply the provider gives if it
 * is asked, are parameters here; a reading that is not taken is ignored.
 */
module SchemeCache {
  import opened Wrappers
  import opened OrderedDict
  import opened Upstream

  /** Seconds a fetched directory stays fresh. */
  const FreshnessWindow: real := 3600.0

  /** `{s["SchemeId"]: s["SchemeName"] for s in data.get("data", [])}`. */
  function DirectoryOf(reply: SchemeList): (d: Directory)
    ensures UniqueKeys(d)
  {
    var records := reply.data.GetOr([]);
    FromPairs(seq(|records|, i requires 0 <= i < |records| => (records[i].schemeId, records[i].schemeName)))
  }

  /** A reply without a `data` list, or with an empty one, yields the empty directory. */
  lemma DirectoryOfMissingData()
    ensures DirectoryOf(SchemeList(None)) == []
    ensures DirectoryOf(SchemeList(Some([]))) == []
  {
  }

  /**
   * A scheme is in the fetched directory exactly when the reply lists it, and
   * its name is the one of the last record with that id.
   */
  lemma DirectoryOfNames(records: seq<SchemeRecord>, id: SchemeId, name: string)
    ensures Get(DirectoryOf(SchemeList(Some(records))), id) == Some(name) <==>
      exists i :: 0 <= i < |records| && records[i] == SchemeRecord(id, name)
                  && forall j :: i < j < |records| ==> records[j].schemeId != id
  {
    var ps := seq(|records|, i requires 0 <= i < |records| => (records[i].schemeId, records[i].schemeName));
    FromPairsLastWins(ps, id, name);
    assert forall i :: 0 <= i < |records| ==> ps[i] == (records[i].schemeId, records[i].schemeName);
  }

  /** The two cache globals. */
  datatype CacheState = CacheState(schemes: Option<Directory>, lastFetched: real)

  /** At process start: no directory, timestamp 0. */
  const Initial := CacheState(None, 0.0)

  /** The refresh rule of `get_all_schemes`. */
  predicate Stale(s: CacheState, now: real) {
    s.schemes.None? || now - s.lastFetched > FreshnessWindow
  }

  /**
   * One call of `get_all_schemes` at time `now`: the directory it returns and
   * the new cache state.  `reply` is what the provider answers if asked and
   * `doneAt` the time read after the fetch.
   */
  function Lookup(s: CacheState, now: real, reply: SchemeList, doneAt: real): (r: (Directory, CacheState))
    ensures r.1.schemes == Some(r.0)
    ensures r.1 == s || r.1.lastFetched == doneAt
  {
    if Stale(s, now) then
      var d := DirectoryOf(reply);
      (d, CacheState(Some(d), doneAt))
    else
      (s.schemes.value, s)
  }

  /** A fresh cache returns its directory and stays as it is. */
  lemma CacheHit(s: CacheState, now: real, reply: SchemeList, doneAt: real)
    requires s.schemes.Some? && now - s.lastFetched <= FreshnessWindow
    ensures Lookup(s, now, reply, doneAt) == (s.schemes.value, s)
  {
  }

  /** A stale or empty cache is replaced as a whole by the fetched directory. */
  lemma CacheRefresh(s: CacheState, now: real, reply: SchemeList, doneAt: real)
    requires s.schemes.None? || now - s.lastFetched > FreshnessWindow
    ensures Lookup(s, now, reply, doneAt) == (DirectoryOf(reply), CacheState(Some(DirectoryOf(reply)), doneAt))
  {
  }

  /** A fresh cache does not look at the provider at all. */
  lemma HitIgnoresProvider(s: CacheState, now: real, reply1: SchemeList, doneAt1: real, reply2: SchemeList, doneAt2: real)
    requires !Stale(s, now)
    ensures Lookup(s, now, reply1, doneAt1) == Lookup(s, now, reply2, doneAt2)
  {
  }

  /** The first call always fetches. */
  lemma FirstCallFetches(now: real, reply: SchemeList, doneAt: real)
    ensures Lookup(Initial, now, reply, doneAt) == (DirectoryOf(reply), CacheState(Some(DirectoryOf(reply)), doneAt))
  {
  }

  /**
   * Within an hour of a fetch, every call returns the fetched directory and
   * leaves the cache as it is, whatever the provider would now answer.
   */
  lemma FreshAfterFetch(s: CacheState, now: real, reply: SchemeList, doneAt: real,
                        later: real, laterReply: SchemeList, laterDone: real)
    requires Stale(s, now)
    requires later - doneAt <= FreshnessWindow
    ensures var (d, s') := Lookup(s, now, reply, doneAt);
            Lookup(s', later, laterReply, laterDone) == (d, s')
  {
  }

  /** More than an hour after the last fetch, the next call fetches again. */
  lemma RefetchAfterWindow(s: CacheState, now: real, reply: SchemeList, doneAt: real)
    requires s.schemes.Some? && now - s.lastFetched > FreshnessWindow
    ensures Lookup(s, now, reply, doneAt).0 == DirectoryOf(reply)
    ensures Lookup(s, now, reply, doneAt).1.lastFetched == doneAt
  {
  }

  /**
   * When the clock does not run backwards during a fetch, the directory
   * returned at `now` was fetched no more than an hour before `now`.
   */
  lemma ServedDirectoryIsFresh(s: CacheState, now: real, reply: SchemeList, doneAt: real)
    requires now <= doneAt
    ensures now - Lookup(s, now, reply, doneAt).1.lastFetched <= FreshnessWindow
  {
  }

  /** The cache globals as an object whose fields `get_all_schemes` updates. */
  class Cache {
    var schemes: Option<Directory>
    var lastFetched: real

    /** Only `DirectoryOf` fills the cache, so a stored directory has unique ids. */
    ghost predicate Valid()
      reads this
    {
      schemes.Some? ==> UniqueKeys(schemes.value)
    }

    /** `scheme_cache = None`, `scheme_last_fetched = 0`. */
    constructor ()
      ensures Valid()
      ensures State() == Initial
    {
      schemes := None;
      lastFetched := 0.0;
    }

    function State(): CacheState
      reads this
    {
      CacheState(schemes, lastFetched)
    }

    /**
     * `get_all_schemes`.  `refreshed` tells whether the provider was called.
     */
    method GetAllSchemes(now: real, reply: SchemeList, doneAt: real) returns (d: Directory, refreshed: bool)
      requires Valid()
      modifies this
      ensures Valid() && UniqueKeys(d)
      ensures refreshed == Stale(old(State()), now)
      ensures (d, State()) == Lookup(old(State()), now, reply, doneAt)
      ensures !refreshed ==> unchanged(this)
    {
      if schemes.None? || now - lastFetched > FreshnessWindow {
        schemes := Some(DirectoryOf(reply));
        lastFetched := doneAt;
        refreshed := true;
      } else {
        refreshed := false;
      }
      d := schemes.value;
    }
  }
}
