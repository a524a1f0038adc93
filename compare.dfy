/**
 * The `/compare` endpoint: resolve display names from the scheme directory,
 * reject fewer than two ids, fetch one expense ratio per id and build the
 * overlap matrix.  Rendering the matrix as an image is not modelled; the
 * response carries the matrix and the labels it would be drawn with.
 */
module Compare {
  import opened Wrappers
  import opened OrderedDict
  import opened IntText
  import opened Upstream
  import opened SchemeCache
  import opened Heatmap

  /** Fewer ids than this are refused. */
  const MinSchemes := 2

  const BadRequest := 400
  const TooFewMessage := "Please select at least 2 schemes"

  datatype Response =
    | Rejected(status: int, error: string)
    | Compared(matrix: array2<Overlap>, schemeNames: seq<string>, expenseRatios: Dict<string, JsonValue>)

  /** `f"Scheme {id}"`, the name shown for an id the directory does not know. */
  function FallbackName(id: SchemeId): string {
    "Scheme " + IntString(id)
  }

  /** Placeholder names tell their ids apart. */
  lemma FallbackNameInjective(a: SchemeId, b: SchemeId)
    ensures FallbackName(a) == FallbackName(b) ==> a == b
  {
    if FallbackName(a) == FallbackName(b) {
      assert FallbackName(a)[7..] == IntString(a);
      assert FallbackName(b)[7..] == IntString(b);
      IntStringInjective(a, b);
    }
  }

  /** `[schemes.get(int(id), f"Scheme {id}") for id in scheme_ids]`. */
  function SchemeNames(d: Directory, ids: seq<SchemeId>): (names: seq<string>)
    ensures |names| == |ids|
    ensures forall i :: 0 <= i < |ids| ==> (ids[i], names[i]) in d || (Get(d, ids[i]).None? && names[i] == FallbackName(ids[i]))
  {
    if ids == [] then [] else [Get(d, ids[0]).GetOr(FallbackName(ids[0]))] + SchemeNames(d, ids[1..])
  }

  /** In a dict the name of a known id is the one stored under it. */
  lemma SchemeNamesKnown(d: Directory, ids: seq<SchemeId>, i: int, name: string)
    requires UniqueKeys(d) && 0 <= i < |ids| && (ids[i], name) in d
    ensures SchemeNames(d, ids)[i] == name
  {
  }

  /** `{str(id): get_expense_ratio(id) for id in scheme_ids}`. */
  function ExpenseRatios(ids: seq<SchemeId>, expenseReply: SchemeId -> Reply<JsonValue>): (r: Dict<string, JsonValue>)
    ensures UniqueKeys(r)
  {
    FromPairs(seq(|ids|, i requires 0 <= i < |ids| => (IntString(ids[i]), ExpenseOf(expenseReply(ids[i])))))
  }

  /**
   * The expense map has a key `str(id)` for each selected id, holding that
   * id's ratio or "N/A", and no other key.
   */
  lemma ExpenseRatiosEntries(ids: seq<SchemeId>, expenseReply: SchemeId -> Reply<JsonValue>, key: string)
    ensures Get(ExpenseRatios(ids, expenseReply), key).Some? <==> exists i :: 0 <= i < |ids| && key == IntString(ids[i])
    ensures forall i :: 0 <= i < |ids| && key == IntString(ids[i]) ==>
              Get(ExpenseRatios(ids, expenseReply), key) == Some(ExpenseOf(expenseReply(ids[i])))
  {
    var ps := seq(|ids|, i requires 0 <= i < |ids| => (IntString(ids[i]), ExpenseOf(expenseReply(ids[i]))));
    FromPairsKeys(ps, key);
    assert forall i :: KeyAt(ps, key, i) <==> 0 <= i < |ids| && key == IntString(ids[i]);
    forall i | 0 <= i < |ids| && key == IntString(ids[i])
      ensures Get(ExpenseRatios(ids, expenseReply), key) == Some(ExpenseOf(expenseReply(ids[i])))
    {
      var v := Get(FromPairs(ps), key).value;
      FromPairsLastWins(ps, key, v);
      var j :| LastKeyAt(ps, key, j) && ps[j].1 == v;
      IntStringInjective(ids[i], ids[j]);
    }
  }

  /** Distinct ids give an expense map with one entry per id, in the order of the ids. */
  lemma ExpenseRatiosDistinct(ids: seq<SchemeId>, expenseReply: SchemeId -> Reply<JsonValue>)
    requires forall i, j :: 0 <= i < j < |ids| ==> ids[i] != ids[j]
    ensures |ExpenseRatios(ids, expenseReply)| == |ids|
    ensures forall i :: 0 <= i < |ids| ==> ExpenseRatios(ids, expenseReply)[i] == (IntString(ids[i]), ExpenseOf(expenseReply(ids[i])))
  {
    var ps := seq(|ids|, i requires 0 <= i < |ids| => (IntString(ids[i]), ExpenseOf(expenseReply(ids[i]))));
    forall i, j | 0 <= i < j < |ps| ensures ps[i].0 != ps[j].0 {
      IntStringInjective(ids[i], ids[j]);
    }
    FromDistinctPairs(ps);
  }

  /**
   * The `/compare` handler.  `body` is the `scheme_ids` member of the request
   * (None when absent); `now`, `listReply` and `doneAt` feed the directory
   * lookup; the two reply functions stand for the provider's answers.
   */
  method Compare(cache: Cache, body: Option<seq<SchemeId>>, now: real, listReply: SchemeList, doneAt: real,
                 overlapReply: (SchemeId, SchemeId) -> Reply<real>, expenseReply: SchemeId -> Reply<JsonValue>)
    returns (resp: Response)
    requires cache.Valid()
    modifies cache
    ensures cache.Valid()
    ensures cache.State() == Lookup(old(cache.State()), now, listReply, doneAt).1
    ensures var ids := body.GetOr([]);
            |ids| < MinSchemes <==> resp.Rejected?
    ensures resp.Rejected? ==> resp == Rejected(BadRequest, TooFewMessage)
    ensures var ids := body.GetOr([]);
            resp.Compared? ==>
              && fresh(resp.matrix)
              && resp.schemeNames == SchemeNames(Lookup(old(cache.State()), now, listReply, doneAt).0, ids)
              && resp.expenseRatios == ExpenseRatios(ids, expenseReply)
              && resp.matrix.Length0 == |ids| && resp.matrix.Length1 == |ids|
              && (forall i, j :: 0 <= i < j < |ids| ==> resp.matrix[i, j] == OverlapOf(overlapReply(ids[i], ids[j])))
              && (forall i, j :: 0 <= i < |ids| && 0 <= j < |ids| ==> resp.matrix[i, j] == resp.matrix[j, i])
              && (forall i :: 0 <= i < |ids| ==> resp.matrix[i, i] == SelfOverlap)
  {
    var ids := body.GetOr([]);
    var schemes, _ := cache.GetAllSchemes(now, listReply, doneAt);
    var names := SchemeNames(schemes, ids);
    if |ids| < MinSchemes {
      return Rejected(BadRequest, TooFewMessage);
    }
    var expenseRatios := ExpenseRatios(ids, expenseReply);
    var matrix, _ := CreateOverlapMatrix(ids, (a, b) => OverlapOf(overlapReply(a, b)));
    resp := Compared(matrix, names, expenseRatios);
  }

  /**
   * Two selected schemes whose overlap reply is a success carrying 42.5 give
   * the matrix [[100, 42.5], [42.5, 100]], whatever the other replies are.
   */
  method TwoSchemeScenario(listReply: SchemeList, expenseReply: SchemeId -> Reply<JsonValue>) returns (resp: Response)
    ensures resp.Compared? && resp.matrix.Length0 == 2 && resp.matrix.Length1 == 2
    ensures resp.matrix[0, 0] == SelfOverlap && resp.matrix[1, 1] == SelfOverlap
    ensures resp.matrix[0, 1] == Percent(42.5) && resp.matrix[1, 0] == Percent(42.5)
  {
    var cache := new Cache();
    var success: Reply<real> := Envelope(Some(SuccessStatus), Object(Some(42.5)));
    resp := Compare(cache, Some([101, 102]), 0.0, listReply, 0.0, (a, b) => success, expenseReply);
  }

  /** A single selected scheme is refused with 400. */
  method OneSchemeScenario(listReply: SchemeList, overlapReply: (SchemeId, SchemeId) -> Reply<real>,
                           expenseReply: SchemeId -> Reply<JsonValue>) returns (resp: Response)
    ensures resp == Rejected(400, "Please select at least 2 schemes")
  {
    var cache := new Cache();
    resp := Compare(cache, Some([5]), 0.0, listReply, 0.0, overlapReply, expenseReply);
  }
}
