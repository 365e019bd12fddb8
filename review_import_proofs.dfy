/**
 * Properties of the paged import: how a page is split into valid rows and a
 * skipped count, how the page loop advances and stops, and what its totals
 * add up to.
 */
module ReviewImportProofs {
  import opened Wrappers
  import opened JavaText
  import opened Schema
  import opened Upstream
  import opened BulkWriter
  import opened ReviewImport

  // ---------------------------------------------------------------------
  // Validation pass
  // ---------------------------------------------------------------------

  /** The positions of the rows that pass validation, in increasing order. */
  function KeptIndices(rows: seq<ReviewInDto>): seq<nat>
    decreases |rows|
  {
    if rows == [] then []
    else KeptIndices(rows[..|rows| - 1]) + (if IsValid(rows[|rows| - 1]) then [|rows| - 1] else [])
  }

  /** Every row is either kept or counted as skipped. */
  lemma {:induction false} ValidateAccounting(rows: seq<ReviewInDto>)
    ensures |Validate(rows)| + CountInvalid(rows) == |rows|
    decreases |rows|
  {
    if rows != [] {
      ValidateAccounting(rows[..|rows| - 1]);
    }
  }

  /** The kept rows are exactly the valid rows, in their original order:
      the j-th kept row is the row at the j-th kept position, the positions
      increase, and a position is kept iff its row is valid. */
  lemma ValidateCharacterized(rows: seq<ReviewInDto>)
    ensures |KeptIndices(rows)| == |Validate(rows)|
    ensures forall j :: 0 <= j < |KeptIndices(rows)| ==>
      KeptIndices(rows)[j] < |rows| && Validate(rows)[j] == rows[KeptIndices(rows)[j]]
    ensures forall j, j' :: 0 <= j < j' < |KeptIndices(rows)| ==> KeptIndices(rows)[j] < KeptIndices(rows)[j']
    ensures forall i :: 0 <= i < |rows| ==> (IsValid(rows[i]) <==> i in KeptIndices(rows))
  {
    KeptIndicesShape(rows);
    ValidateAtKept(rows);
  }

  /** The kept positions are in range, increasing, and exactly the valid ones. */
  lemma {:induction false} KeptIndicesShape(rows: seq<ReviewInDto>)
    ensures |KeptIndices(rows)| == |Validate(rows)|
    ensures forall j :: 0 <= j < |KeptIndices(rows)| ==> KeptIndices(rows)[j] < |rows|
    ensures forall j, j' :: 0 <= j < j' < |KeptIndices(rows)| ==> KeptIndices(rows)[j] < KeptIndices(rows)[j']
    ensures forall i :: 0 <= i < |rows| ==> (IsValid(rows[i]) <==> i in KeptIndices(rows))
    decreases |rows|
  {
    if rows != [] {
      var init := rows[..|rows| - 1];
      KeptIndicesShape(init);
      forall i | 0 <= i < |rows| ensures IsValid(rows[i]) <==> i in KeptIndices(rows) {
        if i < |init| {
          assert rows[i] == init[i];
        }
      }
    }
  }

  /** The j-th kept row is the row at the j-th kept position. */
  lemma {:induction false} ValidateAtKept(rows: seq<ReviewInDto>)
    ensures |KeptIndices(rows)| == |Validate(rows)|
    ensures forall j :: 0 <= j < |KeptIndices(rows)| ==>
      KeptIndices(rows)[j] < |rows| && Validate(rows)[j] == rows[KeptIndices(rows)[j]]
    decreases |rows|
  {
    KeptIndicesShape(rows);
    if rows != [] {
      var init := rows[..|rows| - 1];
      ValidateAtKept(init);
      forall j | 0 <= j < |KeptIndices(rows)|
        ensures Validate(rows)[j] == rows[KeptIndices(rows)[j]]
      {
        if j < |KeptIndices(init)| {
          assert KeptIndices(rows)[j] == KeptIndices(init)[j];
          assert Validate(rows)[j] == Validate(init)[j];
          assert rows[KeptIndices(init)[j]] == init[KeptIndices(init)[j]];
        }
      }
    }
  }

  /** Every kept row passes validation. */
  lemma ValidateSound(rows: seq<ReviewInDto>)
    ensures forall r :: r in Validate(rows) ==> IsValid(r) && r in rows
  {
    ValidateCharacterized(rows);
    forall r | r in Validate(rows) ensures IsValid(r) && r in rows {
      var j :| 0 <= j < |Validate(rows)| && Validate(rows)[j] == r;
      assert rows[KeptIndices(rows)[j]] == r;
    }
  }

  /** Under no nulls, the non-null elements are the elements' values. */
  lemma {:induction false} NonNullValues(raw: seq<Option<ReviewInDto>>)
    requires NoNulls(raw)
    ensures |NonNull(raw)| == |raw|
    ensures forall i :: 0 <= i < |raw| ==> NonNull(raw)[i] == raw[i].value
    decreases |raw|
  {
    if raw != [] {
      var init := raw[..|raw| - 1];
      assert NoNulls(init) by {
        forall i | 0 <= i < |init| ensures init[i].Some? { assert init[i] == raw[i]; }
      }
      NonNullValues(init);
    }
  }

  /** parseAndValidate: received == good + skipped, every good row is valid,
      and the shapes that do not decode as an envelope, a null element, a null
      list and absent paging give the documented results. */
  lemma ParsePageProperties(body: Payload)
    ensures |ParsePage(body).good| + ParsePage(body).skipped == ParsePage(body).received
    ensures forall r :: r in ParsePage(body).good ==> IsValid(r)
    ensures !body.Envelope? ==> ParsePage(body) == PageProcessResult([], 0, 0, None)
    ensures body.Envelope? && body.reviews.Some? && !NoNulls(body.reviews.value) ==>
      ParsePage(body) == PageProcessResult([], 0, 0, None)
    ensures body.Envelope? && body.reviews.None? ==>
      ParsePage(body).received == 0 && ParsePage(body).good == []
    ensures body.Envelope? && body.paging.None? ==> ParsePage(body).totalPages.None?
    ensures body.Envelope? && (body.reviews.None? || NoNulls(body.reviews.value)) ==>
      ParsePage(body).received == |body.reviews.GetOr([])|
  {
    if body.Envelope? {
      var raw := body.reviews.GetOr([]);
      if NoNulls(raw) {
        ValidateAccounting(NonNull(raw));
        ValidateSound(NonNull(raw));
      }
    }
  }

  /** For an envelope without nulls, the good rows are the valid raw rows in
      their original order. */
  lemma ParsePageOrder(body: Payload)
    requires body.Envelope? && NoNulls(body.reviews.GetOr([]))
    ensures var raw := body.reviews.GetOr([]);
            var good := ParsePage(body).good;
            var k := KeptIndices(NonNull(raw));
            && |k| == |good|
            && (forall j :: 0 <= j < |k| ==> k[j] < |raw| && good[j] == raw[k[j]].value)
            && (forall j, j' :: 0 <= j < j' < |k| ==> k[j] < k[j'])
            && (forall i :: 0 <= i < |raw| ==> (IsValid(raw[i].value) <==> i in k))
  {
    var raw := body.reviews.GetOr([]);
    NonNullValues(raw);
    ValidateCharacterized(NonNull(raw));
  }

  /** Valid rows carry both parts of their natural key. */
  lemma ValidRowsKeyed(rows: seq<ReviewInDto>)
    requires forall r :: r in rows ==> IsValid(r)
    ensures AllKeyed(rows)
  {
    forall i | 0 <= i < |rows| ensures KeyOf(rows[i]).Some? {
      assert rows[i] in rows;
      assert IdNotBlank !in Violations(rows[i]);
      assert SourceNotBlank !in Violations(rows[i]);
    }
  }

  // ---------------------------------------------------------------------
  // The page loop
  // ---------------------------------------------------------------------

  /** Requests go to pages 1, 2, 3, ... with the configured size. */
  predicate Consecutive(reqs: seq<Request>, size: int) {
    forall i :: 0 <= i < |reqs| ==> reqs[i] == Request(i + 1, size)
  }

  predicate PagesInOrder(c: seq<PageLog>) {
    forall i :: 0 <= i < |c| ==> c[i].page == i + 1
  }

  function SumAffected(c: seq<PageLog>): int
    decreases |c|
  {
    if c == [] then 0 else SumAffected(c[..|c| - 1]) + c[|c| - 1].affected
  }

  function SumSkipped(c: seq<PageLog>): int
    decreases |c|
  {
    if c == [] then 0 else SumSkipped(c[..|c| - 1]) + c[|c| - 1].skipped
  }

  /** What holds each time the loop is about to process a page. */
  predicate AtLoopHead(env: Env, s: RunState) {
    && 1 <= s.page
    && s.totalPages >= 1
    && |s.completed| == s.page - 1
    && |s.requests| == s.page - 1
    && Consecutive(s.requests, PageSize(env.props))
    && PagesInOrder(s.completed)
    && s.totalAffected == SumAffected(s.completed)
    && s.totalSkipped == SumSkipped(s.completed)
  }

  /** What holds when the run is over: the pages requested are 1..k without
      gaps or repeats, every one but possibly the last completed, totalPages
      is at least 1, and the totals are the sums over the completed pages. */
  predicate Finished(env: Env, s: RunState) {
    && s.totalPages >= 1
    && |s.completed| == s.page - 1
    && |s.completed| <= |s.requests| <= |s.completed| + 1
    && Consecutive(s.requests, PageSize(env.props))
    && PagesInOrder(s.completed)
    && s.totalAffected == SumAffected(s.completed)
    && s.totalSkipped == SumSkipped(s.completed)
  }

  /** totalPages never drops below 1: a supplied count becomes max(1, count),
      an absent one keeps the previous value. */
  lemma NextTotalPagesAtLeastOne(totalPages: int, supplied: Option<int>)
    requires totalPages >= 1
    ensures NextTotalPages(totalPages, supplied) >= 1
    ensures supplied.Some? && supplied.value >= 1 ==> NextTotalPages(totalPages, supplied) == supplied.value
    ensures supplied.Some? && supplied.value < 1 ==> NextTotalPages(totalPages, supplied) == 1
    ensures supplied.None? ==> NextTotalPages(totalPages, supplied) == totalPages
  {
  }

  /** One pass of the body keeps the loop-head facts, or ends in a finished state. */
  lemma StepPreserves(env: Env, s: RunState)
    requires AtLoopHead(env, s)
    ensures PageStep(env, s).Next? ==> AtLoopHead(env, PageStep(env, s).state)
    ensures PageStep(env, s).Stop? ==> Finished(env, PageStep(env, s).state)
  {
    var r := PageStep(env, s);
    if r.Next? {
      var c := r.state.completed;
      assert c[..|c| - 1] == s.completed;
    }
  }

  /** Every run ends in a finished state. */
  lemma {:induction false} RunFinished(env: Env, s: RunState)
    requires AtLoopHead(env, s) && s.page <= |env.upstream| + 1
    ensures Finished(env, Run(env, s))
    decreases |env.upstream| + 1 - s.page
  {
    StepPreserves(env, s);
    match PageStep(env, s)
    case Stop(_) =>
    case Next(s') =>
      if s'.page <= s'.totalPages {
        RunFinished(env, s');
      }
  }

  /** The import as a whole: consecutive pages from 1, totalPages >= 1, and
      returned and skipped totals equal to the sums over completed pages. */
  lemma ImportRunFinished(env: Env, t: Table)
    ensures Finished(env, ImportRun(env, t))
    ensures ImportRun(env, t).totalAffected == SumAffected(ImportRun(env, t).completed)
  {
    RunFinished(env, InitialState(t));
  }

  /** Without a usable URL and key the run requests nothing and returns 0. */
  lemma NotConfiguredDoesNothing(env: Env, t: Table)
    requires !Configured(env.props)
    ensures ImportRun(env, t) == InitialState(t)
    ensures ImportRun(env, t).totalAffected == 0 && ImportRun(env, t).requests == []
  {
  }

  /** A page whose parsed list is empty (an unparseable body included) ends
      the run before any write: totals, completed pages and table unchanged. */
  lemma EmptyPageEndsRun(env: Env, s: RunState)
    requires 1 <= s.page <= |env.upstream| + 1
    requires Configured(env.props)
    requires Fetch(env.upstream, s.page).Fetched?
    requires ParsePage(Fetch(env.upstream, s.page).body).received == 0
    ensures Run(env, s) == s.(requests := s.requests + [Request(s.page, PageSize(env.props))])
  {
  }

  /** A failed fetch or a failed batch ends the run; the totals and the
      table of the earlier pages are kept. */
  lemma FailureEndsRun(env: Env, s: RunState)
    requires 1 <= s.page <= |env.upstream| + 1
    requires Configured(env.props)
    requires Fetch(env.upstream, s.page).FetchFailed? ||
      (var pr := ParsePage(Fetch(env.upstream, s.page).body);
       pr.received > 0 && WriteBatch(s.table, pr.good, env.db(s.page)).Failure?)
    ensures Run(env, s).totalAffected == s.totalAffected
    ensures Run(env, s).totalSkipped == s.totalSkipped
    ensures Run(env, s).table == s.table
    ensures Run(env, s).completed == s.completed
    ensures Run(env, s).requests == s.requests + [Request(s.page, PageSize(env.props))]
  {
  }

  /** A page with rows that are all invalid still advances: nothing is
      written (whatever the database would do), all rows count as skipped. */
  lemma AllInvalidPageAdvances(env: Env, s: RunState)
    requires Configured(env.props)
    requires Fetch(env.upstream, s.page).Fetched?
    requires ParsePage(Fetch(env.upstream, s.page).body).received > 0
    requires ParsePage(Fetch(env.upstream, s.page).body).good == []
    ensures PageStep(env, s).Next?
    ensures PageStep(env, s).state.table == s.table
    ensures PageStep(env, s).state.totalAffected == s.totalAffected
    ensures PageStep(env, s).state.totalSkipped == s.totalSkipped + ParsePage(Fetch(env.upstream, s.page).body).received
  {
    ParsePageProperties(Fetch(env.upstream, s.page).body);
  }

  /** Page p delivers rows, announces n pages (page 1 must; later pages may
      also leave paging out), and its batch, if any, commits. */
  predicate FullPage(env: Env, p: int, n: int) {
    && Fetch(env.upstream, p).Fetched?
    && var pr := ParsePage(Fetch(env.upstream, p).body);
    && pr.received > 0
    && (pr.totalPages == Some(n) || (p >= 2 && pr.totalPages.None?))
    && (pr.good == [] || env.db(p).Committed?)
  }

  /** One pass over a full page: it completes, advances the page, leaves
      totalPages at n and adds one request and one completed page. */
  lemma FullPageStep(env: Env, s: RunState, n: int)
    requires Configured(env.props) && n >= 1 && 1 <= s.page <= n
    requires FullPage(env, s.page, n)
    requires s.page >= 2 ==> s.totalPages == n
    ensures PageStep(env, s).Next?
    ensures PageStep(env, s).state.page == s.page + 1 && PageStep(env, s).state.totalPages == n
    ensures |PageStep(env, s).state.requests| == |s.requests| + 1
    ensures |PageStep(env, s).state.completed| == |s.completed| + 1
  {
    var pr := ParsePage(Fetch(env.upstream, s.page).body);
    ParsePageProperties(Fetch(env.upstream, s.page).body);
    ValidRowsKeyed(pr.good);
    var w := WriteBatch(s.table, pr.good, env.db(s.page));
    assert w.Success?;
    StepCompleted(env, s, pr, w.value.0, w.value.1);
  }

  lemma {:induction false} RunFullPages(env: Env, s: RunState, n: int)
    requires Configured(env.props) && n >= 1
    requires forall p :: 1 <= p <= n ==> FullPage(env, p, n)
    requires 1 <= s.page <= n && |s.requests| == s.page - 1 && |s.completed| == s.page - 1
    requires s.page >= 2 ==> s.totalPages == n
    ensures s.page <= |env.upstream|
    ensures |Run(env, s).requests| == n && |Run(env, s).completed| == n
    decreases n - s.page
  {
    assert FullPage(env, s.page, n);
    FullPageStep(env, s, n);
    var s' := PageStep(env, s).state;
    RunAfterNext(env, s, s');
    if s'.page <= n {
      RunFullPages(env, s', n);
    }
  }

  /** If page 1 announces n pages, no later page changes that, and every
      page 1..n delivers rows and commits, exactly n requests are made and
      all n pages complete. */
  lemma ExactlyNFetches(env: Env, t: Table, n: int)
    requires Configured(env.props) && n >= 1
    requires forall p :: 1 <= p <= n ==> FullPage(env, p, n)
    ensures |ImportRun(env, t).requests| == n
    ensures |ImportRun(env, t).completed| == n
  {
    RunFullPages(env, InitialState(t), n);
  }

  function YelpRow(id: string, rating: int): ReviewInDto {
    ReviewInDto(Some(id), Some("yelp"), None, Some(rating), None, None, None)
  }

  /** One page with ratings 4, 9 and 2, announcing a single page. */
  function ScenarioBody(): Payload {
    Envelope(Some([Some(YelpRow("a1", 4)), Some(YelpRow("a2", 9)), Some(YelpRow("a3", 2))]),
             Some(Paging(None, None, Some(1))))
  }

  function ScenarioEnv(now: Timestamp): Env {
    Env(AppProperties(Some("https://upstream.example"), Some("key"), None),
        [Fetched(ScenarioBody())], (p: int) => Committed(now, [1, 1]))
  }

  /** The row rated 9 is dropped by the validator, the others kept in order. */
  lemma ScenarioParse()
    ensures ParsePage(ScenarioBody()) == PageProcessResult([YelpRow("a1", 4), YelpRow("a3", 2)], 1, 3, Some(1))
  {
    ScenarioNonNull();
    ScenarioValidate();
  }

  /** Ratings 4 and 2 pass, 9 does not. */
  lemma ScenarioValidity()
    ensures IsValid(YelpRow("a1", 4)) && !IsValid(YelpRow("a2", 9)) && IsValid(YelpRow("a3", 2))
  {
    assert !IsBlank("a1") by { assert !IsWhitespace("a1"[0]); }
    assert !IsBlank("a2") by { assert !IsWhitespace("a2"[0]); }
    assert !IsBlank("a3") by { assert !IsWhitespace("a3"[0]); }
    assert !IsBlank("yelp") by { assert !IsWhitespace("yelp"[0]); }
    assert RatingMax in Violations(YelpRow("a2", 9));
  }

  lemma ScenarioValidate()
    ensures Validate([YelpRow("a1", 4), YelpRow("a2", 9), YelpRow("a3", 2)]) == [YelpRow("a1", 4), YelpRow("a3", 2)]
    ensures CountInvalid([YelpRow("a1", 4), YelpRow("a2", 9), YelpRow("a3", 2)]) == 1
  {
    var a1, a2, a3 := YelpRow("a1", 4), YelpRow("a2", 9), YelpRow("a3", 2);
    ScenarioValidity();
    var v1 := [] + [a1];
    var v2 := v1 + [a2];
    var v3 := v2 + [a3];
    assert v3 == [a1, a2, a3];
    ValidateSnoc([], a1);
    ValidateSnoc(v1, a2);
    ValidateSnoc(v2, a3);
  }

  /** The scenario list has no null element. */
  lemma ScenarioNonNull()
    ensures var raw := ScenarioBody().reviews.value;
            NoNulls(raw) && NonNull(raw) == [YelpRow("a1", 4), YelpRow("a2", 9), YelpRow("a3", 2)]
  {
    var a1, a2, a3 := YelpRow("a1", 4), YelpRow("a2", 9), YelpRow("a3", 2);
    var r1 := [] + [Some(a1)];
    var r2 := r1 + [Some(a2)];
    var r3 := r2 + [Some(a3)];
    assert r3 == ScenarioBody().reviews.value;
    NonNullSnoc([], Some(a1));
    NonNullSnoc(r1, Some(a2));
    NonNullSnoc(r2, Some(a3));
  }

  /** Page 1 of the scenario completes: two rows written, one skipped, and
      totalPages stays 1. */
  lemma ScenarioStep(t: Table, now: Timestamp)
    ensures PageStep(ScenarioEnv(now), InitialState(t)) ==
      Next(RunState(2, 1, 2, 1, [Request(1, DEFAULT_PAGE_SIZE)], [PageLog(1, 3, 2, 1, 2)],
                    UpsertAll(t, [YelpRow("a1", 4), YelpRow("a3", 2)], now)))
  {
    var env := ScenarioEnv(now);
    assert Configured(env.props) by {
      assert !IsWhitespace("https://upstream.example"[0]);
    }
    assert Fetch(env.upstream, 1) == Fetched(ScenarioBody());
    ScenarioParse();
    ScenarioWrite(t, now);
  }

  /** The batch of the two valid rows commits with codes [1, 1]: 2 affected. */
  lemma ScenarioWrite(t: Table, now: Timestamp)
    ensures WriteBatch(t, [YelpRow("a1", 4), YelpRow("a3", 2)], ScenarioEnv(now).db(1))
         == Success((2, UpsertAll(t, [YelpRow("a1", 4), YelpRow("a3", 2)], now)))
  {
    assert NormalizedSum([1, 1]) == 2 by {
      assert [1, 1][..1] == [1];
      assert [1][..0] == [];
    }
    ScenarioKeys(t, now);
  }

  /** The two valid scenario rows touch the keys yelp/a1 and yelp/a3. */
  lemma ScenarioKeys(t: Table, now: Timestamp)
    ensures AllKeyed([YelpRow("a1", 4), YelpRow("a3", 2)])
    ensures UpsertAll(t, [YelpRow("a1", 4), YelpRow("a3", 2)], now).Keys ==
      t.Keys + {NaturalKey("yelp", "a1"), NaturalKey("yelp", "a3")}
  {
    var a1, a3 := YelpRow("a1", 4), YelpRow("a3", 2);
    assert KeyOf(a1) == Some(NaturalKey("yelp", "a1"));
    assert KeyOf(a3) == Some(NaturalKey("yelp", "a3"));
    assert [a1, a3][0] == a1 && [a1, a3][1] == a3;
    assert AllKeyed([a1, a3]);
    UpsertAllKeys(t, [a1, a3], now);
    assert BatchKeys([a1, a3]) == {NaturalKey("yelp", "a1"), NaturalKey("yelp", "a3")};
  }

  /** The single announced page: the row rated 9 is skipped, two rows are
      written and counted, and the run stops after page 1. */
  lemma EndToEndScenario(t: Table, now: Timestamp)
    ensures ImportRun(ScenarioEnv(now), t).totalAffected == 2
    ensures ImportRun(ScenarioEnv(now), t).totalSkipped == 1
    ensures ImportRun(ScenarioEnv(now), t).requests == [Request(1, DEFAULT_PAGE_SIZE)]
    ensures ImportRun(ScenarioEnv(now), t).table.Keys == t.Keys + {NaturalKey("yelp", "a1"), NaturalKey("yelp", "a3")}
  {
    ScenarioStep(t, now);
    ScenarioKeys(t, now);
    var s' := PageStep(ScenarioEnv(now), InitialState(t)).state;
    assert !(s'.page <= s'.totalPages);
    assert ImportRun(ScenarioEnv(now), t) == s';
  }
}
