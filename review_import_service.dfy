/**
 * ReviewImportService: the paged import. Pages 1, 2, ... are fetched from the
 * upstream API, each decoded as an envelope, validated row by row, and the
 * valid rows written as one batch; the run ends on an empty page, on any
 * exception, or after the last page the upstream announced.
 */
module ReviewImport {
  import opened Wrappers
  import opened JavaText
  import opened Schema
  import opened Upstream
  import opened BulkWriter

  /** The page size used when none is configured. */
  const DEFAULT_PAGE_SIZE: int := 500

  /** The "paging" object of an envelope. */
  datatype Paging = Paging(page: Option<int>, size: Option<int>, totalPages: Option<int>)

  /** A response body as the JSON decoder sees it: the envelope
      {"reviews": [...], "paging": {...}}, a bare array of records, or text
      that is not JSON of either shape. A JSON null inside the list is a null
      element. */
  datatype Payload =
    | Envelope(reviews: Option<seq<Option<ReviewInDto>>>, paging: Option<Paging>)
    | BareArray(items: seq<Option<ReviewInDto>>)
    | Malformed

  /** One call to the HTTP helper: it returns only on a 2xx status with a
      non-blank body; every other case (transport fault, other status, empty
      body) is an exception. */
  datatype FetchOutcome = FetchFailed | Fetched(body: Payload)

  /** The carrier for one page's outcome. */
  datatype PageProcessResult = PageProcessResult(good: seq<ReviewInDto>, skipped: nat, received: nat, totalPages: Option<int>)

  /** The result of a page that could not be decoded. */
  const EmptyPage: PageProcessResult := PageProcessResult([], 0, 0, None)

  predicate NoNulls(raw: seq<Option<ReviewInDto>>) {
    forall i :: 0 <= i < |raw| ==> raw[i].Some?
  }

  /** The non-null elements of a list, in order. */
  function NonNull(raw: seq<Option<ReviewInDto>>): (rows: seq<ReviewInDto>)
    ensures |rows| <= |raw|
    ensures NoNulls(raw) ==> |rows| == |raw|
    decreases |raw|
  {
    if raw == [] then []
    else
      var init := raw[..|raw| - 1];
      assert NoNulls(raw) ==> NoNulls(init) by {
        if NoNulls(raw) { forall i | 0 <= i < |init| ensures init[i].Some? { assert init[i] == raw[i]; } }
      }
      NonNull(init) + (if raw[|raw| - 1].Some? then [raw[|raw| - 1].value] else [])
  }

  /** The rows that pass validation, in their original order. */
  function Validate(rows: seq<ReviewInDto>): seq<ReviewInDto>
    decreases |rows|
  {
    if rows == [] then []
    else Validate(rows[..|rows| - 1]) + (if IsValid(rows[|rows| - 1]) then [rows[|rows| - 1]] else [])
  }

  /** The number of rows that fail validation. */
  function CountInvalid(rows: seq<ReviewInDto>): nat
    decreases |rows|
  {
    if rows == [] then 0
    else CountInvalid(rows[..|rows| - 1]) + (if IsValid(rows[|rows| - 1]) then 0 else 1)
  }

  /** NonNull, extended by one element. */
  lemma NonNullSnoc(raw: seq<Option<ReviewInDto>>, x: Option<ReviewInDto>)
    ensures NonNull(raw + [x]) == NonNull(raw) + (if x.Some? then [x.value] else [])
    ensures NoNulls(raw + [x]) <==> NoNulls(raw) && x.Some?
  {
    assert (raw + [x])[..|raw|] == raw;
    if NoNulls(raw) && x.Some? {
      forall i | 0 <= i < |raw + [x]| ensures (raw + [x])[i].Some? {
        if i < |raw| { assert (raw + [x])[i] == raw[i]; }
      }
    }
    if NoNulls(raw + [x]) {
      assert (raw + [x])[|raw|] == x;
      forall i | 0 <= i < |raw| ensures raw[i].Some? { assert (raw + [x])[i] == raw[i]; }
    }
  }

  /** Validate and CountInvalid, extended by one row. */
  lemma ValidateSnoc(rows: seq<ReviewInDto>, r: ReviewInDto)
    ensures Validate(rows + [r]) == Validate(rows) + (if IsValid(r) then [r] else [])
    ensures CountInvalid(rows + [r]) == CountInvalid(rows) + (if IsValid(r) then 0 else 1)
  {
    assert (rows + [r])[..|rows|] == rows;
  }

  /** What parseAndValidate produces for a body. Only the envelope shape
      decodes; a bare array or malformed text is an empty page. A null
      reviews list is zero rows; absent paging is a null totalPages. A null
      element makes the validator throw, which also yields an empty page. */
  function ParsePage(body: Payload): PageProcessResult {
    match body
    case Envelope(reviews, paging) =>
      var raw := reviews.GetOr([]);
      if !NoNulls(raw) then EmptyPage
      else
        var rows := NonNull(raw);
        var tp := if paging.Some? then paging.value.totalPages else None;
        PageProcessResult(Validate(rows), CountInvalid(rows), |raw|, tp)
    case BareArray(_) => EmptyPage
    case Malformed => EmptyPage
  }

  /** The base URL must be present and not blank, and the key present
      (Map.of rejects a null header value); otherwise every attempt throws
      before a request is made. */
  predicate Configured(props: AppProperties) {
    props.url.Some? && !IsBlank(props.url.value) && props.key.Some?
  }

  function PageSize(props: AppProperties): int {
    props.pageSize.GetOr(DEFAULT_PAGE_SIZE)
  }

  /** The upstream, as the responses to pages 1..|upstream|; any page beyond
      those fails. */
  function Fetch(upstream: seq<FetchOutcome>, page: int): FetchOutcome {
    if 1 <= page <= |upstream| then upstream[page - 1] else FetchFailed
  }

  /** totalPages after a page: max(1, supplied) when the page supplies it,
      else unchanged. */
  function NextTotalPages(totalPages: int, supplied: Option<int>): int {
    if supplied.Some? then (if supplied.value >= 1 then supplied.value else 1) else totalPages
  }

  /** A request issued to the upstream. */
  datatype Request = Request(page: int, size: int)

  /** A page that went through to the end of its cycle. */
  datatype PageLog = PageLog(page: int, received: nat, written: nat, skipped: nat, affected: int)

  /** Everything the import depends on besides the table: configuration, the
      upstream's responses, and what the database does with the batch
      written for each page. */
  datatype Env = Env(props: AppProperties, upstream: seq<FetchOutcome>, db: int -> BatchEnv)

  /** The loop's variables, with the requests issued and pages completed so far. */
  datatype RunState = RunState(
    page: int,
    totalPages: int,
    totalAffected: int,
    totalSkipped: int,
    requests: seq<Request>,
    completed: seq<PageLog>,
    table: Table)

  datatype StepResult = Next(state: RunState) | Stop(state: RunState)

  /** The outcome of upsertBatch on a table, as a value. */
  function WriteBatch(t: Table, rows: seq<ReviewInDto>, env: BatchEnv): Attempt<(int, Table)> {
    if rows == [] then Success((0, t))
    else if env.Committed? && AllKeyed(rows) then Success((NormalizedSum(env.codes), UpsertAll(t, rows, env.now)))
    else Failure
  }

  /** One pass of the loop body. */
  function PageStep(env: Env, s: RunState): (r: StepResult)
    ensures r.Next? ==> 1 <= s.page <= |env.upstream| && r.state.page == s.page + 1
  {
    if !Configured(env.props) then Stop(s)
    else
      var s1 := s.(requests := s.requests + [Request(s.page, PageSize(env.props))]);
      match Fetch(env.upstream, s.page)
      case FetchFailed => Stop(s1)
      case Fetched(body) =>
        var pr := ParsePage(body);
        if pr.received == 0 then Stop(s1)
        else
          var tp := NextTotalPages(s.totalPages, pr.totalPages);
          match WriteBatch(s.table, pr.good, env.db(s.page))
          case Failure => Stop(s1.(totalPages := tp))
          case Success((affected, t)) =>
            Next(s1.(page := s.page + 1,
                     totalPages := tp,
                     totalAffected := s.totalAffected + affected,
                     totalSkipped := s.totalSkipped + pr.skipped,
                     completed := s.completed + [PageLog(s.page, pr.received, |pr.good|, pr.skipped, affected)],
                     table := t))
  }

  /** The exits of the loop body, one lemma each. */
  lemma StepFetchFailed(env: Env, s: RunState)
    requires Configured(env.props) && Fetch(env.upstream, s.page).FetchFailed?
    ensures PageStep(env, s) == Stop(s.(requests := s.requests + [Request(s.page, PageSize(env.props))]))
  {
  }

  lemma StepEmptyPage(env: Env, s: RunState)
    requires Configured(env.props) && Fetch(env.upstream, s.page).Fetched?
    requires ParsePage(Fetch(env.upstream, s.page).body).received == 0
    ensures PageStep(env, s) == Stop(s.(requests := s.requests + [Request(s.page, PageSize(env.props))]))
  {
  }

  lemma StepWriteFailed(env: Env, s: RunState, pr: PageProcessResult)
    requires Configured(env.props) && Fetch(env.upstream, s.page).Fetched?
    requires pr == ParsePage(Fetch(env.upstream, s.page).body) && pr.received != 0
    requires WriteBatch(s.table, pr.good, env.db(s.page)).Failure?
    ensures PageStep(env, s) == Stop(s.(requests := s.requests + [Request(s.page, PageSize(env.props))],
                                        totalPages := NextTotalPages(s.totalPages, pr.totalPages)))
  {
  }

  lemma StepCompleted(env: Env, s: RunState, pr: PageProcessResult, affected: int, t: Table)
    requires Configured(env.props) && Fetch(env.upstream, s.page).Fetched?
    requires pr == ParsePage(Fetch(env.upstream, s.page).body) && pr.received != 0
    requires WriteBatch(s.table, pr.good, env.db(s.page)) == Success((affected, t))
    ensures PageStep(env, s) == Next(RunState(s.page + 1, NextTotalPages(s.totalPages, pr.totalPages),
                                              s.totalAffected + affected, s.totalSkipped + pr.skipped,
                                              s.requests + [Request(s.page, PageSize(env.props))],
                                              s.completed + [PageLog(s.page, pr.received, |pr.good|, pr.skipped, affected)],
                                              t))
  {
  }

  /** The do-while loop: run the body, then continue while page <= totalPages. */
  function Run(env: Env, s: RunState): RunState
    requires 1 <= s.page <= |env.upstream| + 1
    decreases |env.upstream| + 1 - s.page
  {
    match PageStep(env, s)
    case Stop(s') => s'
    case Next(s') => if s'.page <= s'.totalPages then Run(env, s') else s'
  }

  /** After a completed page the loop goes on with the new state while
      page <= totalPages, and the run ends with it otherwise. */
  lemma RunAfterNext(env: Env, s: RunState, s1: RunState)
    requires 1 <= s.page <= |env.upstream| + 1
    requires PageStep(env, s) == Next(s1)
    ensures s1.page <= s1.totalPages ==> Run(env, s) == Run(env, s1)
    ensures !(s1.page <= s1.totalPages) ==> Run(env, s) == s1
  {
  }

  function InitialState(t: Table): RunState {
    RunState(1, 1, 0, 0, [], [], t)
  }

  /** The whole import run from a given table. */
  function ImportRun(env: Env, t: Table): RunState {
    Run(env, InitialState(t))
  }

  class ReviewImportService {
    const props: AppProperties
    const writer: BulkReviewWriter

    constructor (props: AppProperties, writer: BulkReviewWriter)
      ensures this.props == props && this.writer == writer
    {
      this.props := props;
      this.writer := writer;
    }

    /** parseAndValidate: one pass over the decoded rows, keeping the valid
        ones in order and counting the others. */
    method ParseAndValidate(body: Payload) returns (pr: PageProcessResult)
      ensures pr == ParsePage(body)
      ensures |pr.good| + pr.skipped == pr.received
      ensures forall r :: r in pr.good ==> IsValid(r)
    {
      if !body.Envelope? {
        return EmptyPage;
      }
      var raw := body.reviews.GetOr([]);
      var received := |raw|;
      var good: seq<ReviewInDto> := [];
      var skipped := 0;
      var i := 0;
      while i < |raw|
        invariant 0 <= i <= |raw|
        invariant NoNulls(raw[..i])
        invariant good == Validate(NonNull(raw[..i]))
        invariant skipped == CountInvalid(NonNull(raw[..i]))
        invariant |good| + skipped == i
        invariant forall r :: r in good ==> IsValid(r)
      {
        if raw[i].None? {
          // validator.validate(null) throws; the catch turns the page into an empty one
          assert !NoNulls(raw) by { assert raw[i].None?; }
          return EmptyPage;
        }
        var row := raw[i].value;
        assert raw[..i + 1] == raw[..i] + [raw[i]];
        NonNullSnoc(raw[..i], raw[i]);
        ValidateSnoc(NonNull(raw[..i]), row);
        if !IsValid(row) {
          skipped := skipped + 1;
        } else {
          good := good + [row];
        }
        i := i + 1;
      }
      assert raw[..i] == raw;
      var tp := if body.paging.Some? then body.paging.value.totalPages else None;
      pr := PageProcessResult(good, skipped, received, tp);
    }

    /** importAll: the page loop. Returns the total affected count; the
        writer's table ends as the run specification says. */
    method ImportAll(upstream: seq<FetchOutcome>, db: int -> BatchEnv) returns (totalAffected: int)
      modifies writer
      ensures totalAffected == ImportRun(Env(props, upstream, db), old(writer.table)).totalAffected
      ensures writer.table == ImportRun(Env(props, upstream, db), old(writer.table)).table
    {
      ghost var env := Env(props, upstream, db);
      var size := props.pageSize.GetOr(DEFAULT_PAGE_SIZE);
      var page := 1;
      var totalPages := 1;
      totalAffected := 0;
      var totalSkipped := 0;
      ghost var requests: seq<Request> := [];
      ghost var completed: seq<PageLog> := [];
      ghost var final := ImportRun(env, writer.table);
      while true
        invariant 1 <= page <= |upstream| + 1
        invariant Run(env, RunState(page, totalPages, totalAffected, totalSkipped, requests, completed, writer.table)) == final
        decreases |upstream| + 1 - page
      {
        ghost var s0 := RunState(page, totalPages, totalAffected, totalSkipped, requests, completed, writer.table);
        if !Configured(props) {
          // the URL check or Map.of throws; the per-page catch ends the run
          assert PageStep(env, s0) == Stop(s0);
          break;
        }
        requests := requests + [Request(page, size)];
        var fetched := Fetch(upstream, page);
        if fetched.FetchFailed? {
          StepFetchFailed(env, s0);
          break;
        }
        var pr := ParseAndValidate(fetched.body);
        if pr.received == 0 {
          StepEmptyPage(env, s0);
          break;
        }
        if pr.totalPages.Some? {
          totalPages := if pr.totalPages.value >= 1 then pr.totalPages.value else 1;
        }
        assert totalPages == NextTotalPages(s0.totalPages, pr.totalPages);
        var written := writer.UpsertBatch(Some(pr.good), db(page));
        assert written.Failure? <==> WriteBatch(s0.table, pr.good, db(page)).Failure?;
        if written.Failure? {
          StepWriteFailed(env, s0, pr);
          break;
        }
        assert WriteBatch(s0.table, pr.good, db(page)) == Success((written.value, writer.table));
        StepCompleted(env, s0, pr, written.value, writer.table);
        totalAffected := totalAffected + written.value;
        totalSkipped := totalSkipped + pr.skipped;
        completed := completed + [PageLog(page, pr.received, |pr.good|, pr.skipped, written.value)];
        page := page + 1;
        RunAfterNext(env, s0, RunState(page, totalPages, totalAffected, totalSkipped, requests, completed, writer.table));
        if !(page <= totalPages) {
          break;
        }
      }
    }
  }
}
