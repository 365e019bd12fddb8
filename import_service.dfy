/**
 * ImportService: the older single-request importer. It fetches the whole
 * upstream document once, walks its review nodes as a JSON tree, applies
 * only null checks and the rating range, and hands each surviving node to
 * ReviewService.upsert, counting successful calls.
 */
module LegacyImport {
  import opened Wrappers
  import opened Schema
  import opened JavaText
  import PaginationUtil
  import Upstream
  import opened Reviews

  /** A JSON tree as Jackson's JsonNode represents it. Numbers are integral;
      an object keeps the last value of a repeated field. */
  datatype Json =
    | JNull
    | JBool(b: bool)
    | JNum(n: int)
    | JText(s: string)
    | JArray(items: seq<Json>)
    | JObject(fields: map<string, Json>)

  /** The parsed body of a response: readTree either throws or yields a tree. */
  datatype Body = Unparseable | Parsed(root: Json)

  /** What the GET exchange produces: it throws, or a status and a body. */
  datatype HttpResult = TransportFailure | HttpResponse(status: int, body: Option<Body>)

  /** Everything the importer consults besides its settings and the store:
      Jackson's text-to-int conversion, the date parser, and the outcome of
      the transaction around the k-th upsert call (k counting from 0). */
  datatype LegacyEnv = LegacyEnv(
    textToInt: string -> int,
    parseDate: string -> Option<Timestamp>,
    tx: nat -> Transaction)

  /** The decimal digits of a natural number, most significant first. */
  function Digits(n: nat): (s: string)
    ensures |s| >= 1
    ensures forall i :: 0 <= i < |s| ==> '0' <= s[i] <= '9'
    ensures n > 0 ==> s[0] != '0'
  {
    if n < 10 then ['0' + n as char] else Digits(n / 10) + ['0' + (n % 10) as char]
  }

  /** The number a string of decimal digits denotes. */
  function DigitsValue(s: string): nat
    requires forall i :: 0 <= i < |s| ==> '0' <= s[i] <= '9'
  {
    if s == [] then 0 else 10 * DigitsValue(s[..|s| - 1]) + (s[|s| - 1] - '0') as nat
  }

  /** Reading the digits back gives the number. */
  lemma {:induction false} DigitsRoundTrip(n: nat)
    ensures DigitsValue(Digits(n)) == n
  {
    if n >= 10 {
      DigitsRoundTrip(n / 10);
      var s := Digits(n);
      assert s[..|s| - 1] == Digits(n / 10);
    }
  }

  /** Integer.toString / Long.toString: reading the text back, sign first,
      gives the number. */
  function DecimalText(n: int): (s: string)
    ensures n >= 0 ==> |s| >= 1 && (forall i :: 0 <= i < |s| ==> '0' <= s[i] <= '9') && DigitsValue(s) == n
    ensures n > 0 ==> s[0] != '0'
    ensures n == 0 ==> s == "0"
    ensures n < 0 ==> |s| >= 2 && s[0] == '-' && s[1] != '0' && (forall i :: 1 <= i < |s| ==> '0' <= s[i] <= '9')
                      && DigitsValue(s[1..]) == -n
  {
    if n < 0 then
      DigitsRoundTrip(-n);
      assert ("-" + Digits(-n))[1..] == Digits(-n);
      "-" + Digits(-n)
    else
      DigitsRoundTrip(n);
      Digits(n)
  }

  /** JsonNode.asText: a text node's value, a number in decimal, "true" or
      "false", "null", and the empty string for arrays and objects. */
  function AsText(j: Json): string {
    match j
    case JNull => "null"
    case JBool(b) => if b then "true" else "false"
    case JNum(n) => DecimalText(n)
    case JText(s) => s
    case JArray(_) => ""
    case JObject(_) => ""
  }

  /** JsonNode.asInt: the number cut to 32 bits, 1 or 0 for a boolean, the
      text conversion for a text node, and 0 otherwise. */
  function AsInt(j: Json, env: LegacyEnv): int {
    match j
    case JNum(n) => PaginationUtil.Wrap32(n)
    case JBool(b) => if b then 1 else 0
    case JText(s) => env.textToInt(s)
    case _ => 0
  }

  /** JsonNode.hasNonNull(field): an object with that field holding a non-null value. */
  predicate HasNonNull(n: Json, field: string) {
    n.JObject? && field in n.fields && !n.fields[field].JNull?
  }

  /** text(n, field): the field's asText, or null when it is absent or null. */
  function Text(n: Json, field: string): (r: Option<string>)
    ensures r.Some? <==> HasNonNull(n, field)
    ensures r.Some? ==> r.value == AsText(n.fields[field])
  {
    if HasNonNull(n, field) then Some(AsText(n.fields[field])) else None
  }

  /** The node list the importer walks: the root when it is an array, else
      the root's "reviews" field when that is an array; otherwise none. */
  function ReviewList(root: Json): (r: Option<seq<Json>>)
    ensures root.JArray? ==> r == Some(root.items)
    ensures !root.JArray? ==> (r.Some? <==> root.JObject? && "reviews" in root.fields && root.fields["reviews"].JArray?)
    ensures !root.JArray? && r.Some? ==> r.value == root.fields["reviews"].items
  {
    if root.JArray? then Some(root.items)
    else if root.JObject? && "reviews" in root.fields && root.fields["reviews"].JArray? then Some(root.fields["reviews"].items)
    else None
  }

  /** The tag texts collected from a node: asText of every non-null element
      of its "tags" array. */
  function TagTexts(items: seq<Json>): set<string> {
    set j | j in items && !j.JNull? :: AsText(j)
  }

  function NodeTags(n: Json): set<string> {
    if n.JObject? && "tags" in n.fields && n.fields["tags"].JArray? then TagTexts(n.fields["tags"].items) else {}
  }

  /** The Set<String> handed to upsert, as upsert's nullable-element set. */
  function Lift(tags: set<string>): set<Option<string>> {
    set t | t in tags :: Some(t)
  }

  /** The rating read from a node, or null. */
  function Rating(n: Json, env: LegacyEnv): Option<int> {
    if HasNonNull(n, "rating") then Some(AsInt(n.fields["rating"], env)) else None
  }

  /** The upsert call a node produces, or None when the node is skipped:
      its id or source is missing or null, or its rating is outside 1..5. */
  function Candidate(n: Json, env: LegacyEnv): Option<UpsertArgs> {
    var externalId := Text(n, "id");
    var source := Text(n, "source");
    var rating := Rating(n, env);
    var date := Text(n, "reviewDate");
    if externalId.None? || source.None? then None
    else if rating.Some? && (rating.value < 1 || rating.value > 5) then None
    else Some(UpsertArgs(source.value, externalId.value, Text(n, "author"), rating, Text(n, "content"),
                         if date.Some? then env.parseDate(date.value) else None,
                         Some(Lift(NodeTags(n)))))
  }

  /** A node is imported exactly when it is an object with non-null id and
      source and a rating that is null or within 1..5; the call then
      carries the node's texts and its tags. */
  lemma CandidateCharacterized(n: Json, env: LegacyEnv)
    ensures Candidate(n, env).Some? <==>
      && HasNonNull(n, "id") && HasNonNull(n, "source")
      && (!HasNonNull(n, "rating") || 1 <= AsInt(n.fields["rating"], env) <= 5)
    ensures Candidate(n, env).Some? ==>
      var a := Candidate(n, env).value;
      && a.externalId == AsText(n.fields["id"]) && a.source == AsText(n.fields["source"])
      && a.author == Text(n, "author") && a.content == Text(n, "content")
      && a.rating == Rating(n, env)
      && a.reviewDate == (if HasNonNull(n, "reviewDate") then env.parseDate(AsText(n.fields["reviewDate"])) else None)
      && NormalizeTags(a.tags) == (set t | t in NodeTags(n) && !IsBlank(t) :: Trim(t))
  {
    if Candidate(n, env).Some? {
      LiftedTags(NodeTags(n));
    }
  }

  /** Upsert's tag normalisation applied to a null-free set. */
  lemma LiftedTags(tags: set<string>)
    ensures NormalizeTags(Some(Lift(tags))) == (set t | t in tags && !IsBlank(t) :: Trim(t))
  {
    var l := NormalizeTags(Some(Lift(tags)));
    var r := set t | t in tags && !IsBlank(t) :: Trim(t);
    forall x | x in r ensures x in l {
      var t :| t in tags && !IsBlank(t) && Trim(t) == x;
      assert Some(t) in Lift(tags);
    }
  }

  /** Only null checks guard id and source here: a blank id is imported,
      while the validated importer rejects the same record. */
  lemma BlankIdAccepted(env: LegacyEnv)
    ensures Candidate(JObject(map["id" := JText(" \t"), "source" := JText("yelp")]), env).Some?
    ensures !Upstream.IsValid(Upstream.ReviewInDto(Some(" \t"), Some("yelp"), None, None, None, None, None))
  {
    Upstream.BlankIdRejected(Upstream.ReviewInDto(Some(" \t"), Some("yelp"), None, None, None, None, None));
  }

  /** A numeric id becomes its decimal text. */
  lemma NumericIdBecomesText(env: LegacyEnv)
    ensures Candidate(JObject(map["id" := JNum(42), "source" := JText("yelp")]), env).value.externalId == "42"
  {
    assert Digits(42) == Digits(4) + ['2'];
  }

  /** A rating of 2^32 + 3 wraps to 3 and is accepted. */
  lemma WideRatingWraps(env: LegacyEnv)
    ensures Candidate(JObject(map["id" := JText("a"), "source" := JText("yelp"), "rating" := JNum(0x1_0000_0003)]), env).value.rating == Some(3)
  {
  }

  /** The upsert calls a node reader accepts from a node list, in order. */
  function AcceptedBy(read: Json -> Option<UpsertArgs>, items: seq<Json>): (r: seq<UpsertArgs>)
    ensures |r| <= |items|
  {
    if items == [] then []
    else match read(items[0])
      case None => AcceptedBy(read, items[1..])
      case Some(a) => [a] + AcceptedBy(read, items[1..])
  }

  lemma {:induction false} AcceptedByAppend(read: Json -> Option<UpsertArgs>, a: seq<Json>, b: seq<Json>)
    ensures AcceptedBy(read, a + b) == AcceptedBy(read, a) + AcceptedBy(read, b)
    decreases |a|
  {
    if a != [] {
      assert (a + b)[1..] == a[1..] + b;
      AcceptedByAppend(read, a[1..], b);
    } else {
      assert a + b == b;
    }
  }

  lemma {:induction false} AcceptedByMembers(read: Json -> Option<UpsertArgs>, items: seq<Json>)
    ensures forall a :: a in AcceptedBy(read, items) ==> exists i :: 0 <= i < |items| && read(items[i]) == Some(a)
    ensures |AcceptedBy(read, items)| == |items| ==>
      forall i :: 0 <= i < |items| ==> read(items[i]) == Some(AcceptedBy(read, items)[i])
    ensures AcceptedBy(read, items) == [] <==> forall i :: 0 <= i < |items| ==> read(items[i]).None?
    decreases |items|
  {
    if items != [] {
      var rest := items[1..];
      AcceptedByMembers(read, rest);
      forall i | 0 <= i < |rest| ensures rest[i] == items[i + 1] { }
      var r := AcceptedBy(read, items);
      forall a | a in r ensures exists i :: 0 <= i < |items| && read(items[i]) == Some(a) {
        if read(items[0]) != Some(a) {
          assert a in AcceptedBy(read, rest);
          var i :| 0 <= i < |rest| && read(rest[i]) == Some(a);
          assert read(items[i + 1]) == Some(a);
        }
      }
      if |r| == |items| {
        assert read(items[0]).Some?;
        forall i | 0 <= i < |items| ensures read(items[i]) == Some(r[i]) {
          if i > 0 { assert r[i] == AcceptedBy(read, rest)[i - 1]; }
        }
      }
      if r == [] {
        forall i | 0 <= i < |items| ensures read(items[i]).None? {
          if i > 0 { assert items[i] == rest[i - 1]; }
        }
      }
    }
  }

  /** The node reader of importAll's loop. */
  function ReadWith(env: LegacyEnv): Json -> Option<UpsertArgs> {
    n => Candidate(n, env)
  }

  /** The accepted upsert calls of a node list, in order. */
  function Accepted(items: seq<Json>, env: LegacyEnv): (r: seq<UpsertArgs>)
    ensures |r| <= |items|
  {
    AcceptedBy(ReadWith(env), items)
  }

  /** The calls follow the list order: the accepted calls of a concatenation
      are those of the first part followed by those of the second. */
  lemma AcceptedAppend(a: seq<Json>, b: seq<Json>, env: LegacyEnv)
    ensures Accepted(a + b, env) == Accepted(a, env) + Accepted(b, env)
  {
    AcceptedByAppend(ReadWith(env), a, b);
  }

  /** A single node contributes its call when it is accepted, and nothing
      otherwise. */
  lemma AcceptedSingle(n: Json, env: LegacyEnv)
    ensures Accepted([n], env) == if Candidate(n, env).Some? then [Candidate(n, env).value] else []
  {
    assert [n][1..] == [];
  }

  /** Every call comes from an accepted node of the list; when all nodes are
      accepted the calls are their candidates position by position; and
      there is no call exactly when no node is accepted. */
  lemma AcceptedMembers(items: seq<Json>, env: LegacyEnv)
    ensures forall a :: a in Accepted(items, env) ==> exists i :: 0 <= i < |items| && Candidate(items[i], env) == Some(a)
    ensures |Accepted(items, env)| == |items| ==>
      forall i :: 0 <= i < |items| ==> Candidate(items[i], env) == Some(Accepted(items, env)[i])
    ensures Accepted(items, env) == [] <==> forall i :: 0 <= i < |items| ==> Candidate(items[i], env).None?
  {
    AcceptedByMembers(ReadWith(env), items);
    forall i | 0 <= i < |items| ensures ReadWith(env)(items[i]) == Candidate(items[i], env) { }
  }

  /** The walk over a node list from index i, with count upserts made so
      far: nodes the reader rejects are passed over, a committed upsert is
      counted, and the first rolled-back upsert ends the walk (the catch
      returns count). */
  function Walk(read: Json -> Option<UpsertArgs>, step: (Store, UpsertArgs, Timestamp) -> Store,
                tx: nat -> Transaction, items: seq<Json>, i: nat, st: Store, count: nat): (nat, Store)
    requires i <= |items|
    decreases |items| - i
  {
    if i == |items| then (count, st)
    else match read(items[i])
      case None => Walk(read, step, tx, items, i + 1, st, count)
      case Some(a) =>
        match tx(count)
        case RollsBack => (count, st)
        case Commits(now) => Walk(read, step, tx, items, i + 1, step(st, a, now), count + 1)
  }

  /** The store after one upsert call. */
  function Upserted(st: Store, a: UpsertArgs, now: Timestamp): Store {
    UpsertSpec(st, a, now).0
  }

  /** importAll's walk: its reader and ReviewService.upsert. */
  function Process(items: seq<Json>, i: nat, st: Store, count: nat, env: LegacyEnv): (nat, Store)
    requires i <= |items|
  {
    Walk(ReadWith(env), Upserted, env.tx, items, i, st, count)
  }

  /** The number of upserts from start on that commit before the first
      rollback, out of n calls. */
  function CommittedPrefix(tx: nat -> Transaction, start: nat, n: nat): (r: nat)
    requires start <= n
    ensures start <= r <= n
    ensures forall j :: start <= j < r ==> tx(j).Commits?
    ensures r < n ==> tx(r).RollsBack?
    decreases n - start
  {
    if start == n || tx(start).RollsBack? then start else CommittedPrefix(tx, start + 1, n)
  }

  /** importAll as a whole: nothing without url and key, nothing on a
      transport failure, a non-2xx status, a missing or unparseable body or
      an unexpected shape; otherwise the walk over the node list. */
  function ImportSpec(props: AppProperties, response: HttpResult, env: LegacyEnv, st: Store): (nat, Store) {
    if props.url.None? || props.key.None? then (0, st)
    else match response
      case TransportFailure => (0, st)
      case HttpResponse(status, body) =>
        if !(200 <= status < 300) || body.None? || body.value.Unparseable? then (0, st)
        else match ReviewList(body.value.root)
          case None => (0, st)
          case Some(items) => Process(items, 0, st, 0, env)
  }

  /** The calls applied in order by step, the j-th under the transaction
      tx(start + j), up to the first rollback. */
  function FoldWith(step: (Store, UpsertArgs, Timestamp) -> Store, st: Store, calls: seq<UpsertArgs>,
                    tx: nat -> Transaction, start: nat): Store
    decreases |calls|
  {
    if calls == [] then st
    else match tx(start)
      case RollsBack => st
      case Commits(now) => FoldWith(step, step(st, calls[0], now), calls[1..], tx, start + 1)
  }

  /** The upsert calls applied in order to a store, up to the first rollback. */
  function Fold(st: Store, calls: seq<UpsertArgs>, tx: nat -> Transaction, start: nat): Store {
    FoldWith(Upserted, st, calls, tx, start)
  }

  /** Count and store for one more call at the front. */
  lemma FoldCons(step: (Store, UpsertArgs, Timestamp) -> Store, st: Store, a: UpsertArgs, rest: seq<UpsertArgs>,
                 tx: nat -> Transaction, start: nat)
    ensures CommittedPrefix(tx, start, start + 1 + |rest|) ==
      if tx(start).RollsBack? then start else CommittedPrefix(tx, start + 1, start + 1 + |rest|)
    ensures FoldWith(step, st, [a] + rest, tx, start) ==
      if tx(start).RollsBack? then st else FoldWith(step, step(st, a, tx(start).now), rest, tx, start + 1)
  {
    assert ([a] + rest)[1..] == rest;
  }

  /** The walk from index i is the accepted calls from i applied in order up
      to the first rollback, counting the committed ones. */
  lemma {:induction false} WalkIsFold(read: Json -> Option<UpsertArgs>, step: (Store, UpsertArgs, Timestamp) -> Store,
                                      tx: nat -> Transaction, items: seq<Json>, i: nat, st: Store, count: nat)
    requires i <= |items|
    ensures Walk(read, step, tx, items, i, st, count) ==
      (CommittedPrefix(tx, count, count + |AcceptedBy(read, items[i..])|), FoldWith(step, st, AcceptedBy(read, items[i..]), tx, count))
    decreases |items| - i
  {
    if i == |items| {
      assert items[i..] == [];
    } else {
      assert items[i..][1..] == items[i + 1..];
      var rest := AcceptedBy(read, items[i + 1..]);
      match read(items[i])
      case None =>
        WalkIsFold(read, step, tx, items, i + 1, st, count);
      case Some(a) =>
        assert AcceptedBy(read, items[i..]) == [a] + rest;
        FoldCons(step, st, a, rest, tx, count);
        if tx(count).Commits? {
          WalkIsFold(read, step, tx, items, i + 1, step(st, a, tx(count).now), count + 1);
        }
    }
  }

  /** Folding all calls applies exactly the committed prefix of them. */
  lemma {:induction false} FoldCommittedPrefix(step: (Store, UpsertArgs, Timestamp) -> Store, st: Store,
                                               calls: seq<UpsertArgs>, tx: nat -> Transaction, start: nat)
    ensures FoldWith(step, st, calls, tx, start) ==
      FoldWith(step, st, calls[..CommittedPrefix(tx, start, start + |calls|) - start], tx, start)
    decreases |calls|
  {
    if calls != [] {
      var a, rest := calls[0], calls[1..];
      assert calls == [a] + rest;
      FoldCons(step, st, a, rest, tx, start);
      assert start + |calls| == start + 1 + |rest|;
      if tx(start).RollsBack? {
        assert CommittedPrefix(tx, start, start + |calls|) == start;
        assert calls[..0] == [];
      } else {
        var st' := step(st, a, tx(start).now);
        FoldCommittedPrefix(step, st', rest, tx, start + 1);
        var k := CommittedPrefix(tx, start + 1, start + 1 + |rest|) - start - 1;
        assert CommittedPrefix(tx, start, start + |calls|) - start == k + 1;
        assert calls[..k + 1] == [a] + rest[..k];
        FoldCons(step, st, a, rest[..k], tx, start);
        assert FoldWith(step, st, calls, tx, start) == FoldWith(step, st', rest, tx, start + 1);
        assert FoldWith(step, st', rest, tx, start + 1) == FoldWith(step, st', rest[..k], tx, start + 1);
        assert FoldWith(step, st, [a] + rest[..k], tx, start) == FoldWith(step, st', rest[..k], tx, start + 1);
      }
    }
  }

  /** The walk counts exactly the accepted calls that commit before the
      first rollback. */
  lemma ProcessCount(items: seq<Json>, i: nat, st: Store, count: nat, env: LegacyEnv)
    requires i <= |items|
    ensures Process(items, i, st, count, env).0 == CommittedPrefix(env.tx, count, count + |Accepted(items[i..], env)|)
  {
    WalkIsFold(ReadWith(env), Upserted, env.tx, items, i, st, count);
  }

  /** The store after the walk is the old store with the committed prefix of
      the accepted calls applied in list order. */
  lemma ProcessStore(items: seq<Json>, i: nat, st: Store, count: nat, env: LegacyEnv)
    requires i <= |items|
    ensures var r := Process(items, i, st, count, env).0;
            count <= r <= count + |Accepted(items[i..], env)|
            && Process(items, i, st, count, env).1 == Fold(st, Accepted(items[i..], env)[..r - count], env.tx, count)
  {
    var calls := AcceptedBy(ReadWith(env), items[i..]);
    WalkIsFold(ReadWith(env), Upserted, env.tx, items, i, st, count);
    FoldCommittedPrefix(Upserted, st, calls, env.tx, count);
    assert Accepted(items[i..], env) == calls;
    assert Process(items, i, st, count, env) == Walk(ReadWith(env), Upserted, env.tx, items, i, st, count);
  }

  /** A walk of upserts keeps the store's index consistent and never removes
      a review, whatever the reader accepts. */
  lemma {:induction false} WalkKeepsStore(read: Json -> Option<UpsertArgs>, tx: nat -> Transaction,
                                          items: seq<Json>, i: nat, st: Store, count: nat)
    requires i <= |items|
    requires IndexConsistent(st)
    ensures IndexConsistent(Walk(read, Upserted, tx, items, i, st, count).1)
    ensures st.reviews.Keys <= Walk(read, Upserted, tx, items, i, st, count).1.reviews.Keys
    decreases |items| - i
  {
    if i < |items| {
      match read(items[i])
      case None =>
        WalkKeepsStore(read, tx, items, i + 1, st, count);
      case Some(a) =>
        if tx(count).Commits? {
          UpsertKeepsIndex(st, a, tx(count).now);
          WalkKeepsStore(read, tx, items, i + 1, Upserted(st, a, tx(count).now), count + 1);
        }
    }
  }

  /** The walk keeps the store's index consistent and never removes a review. */
  lemma ProcessKeepsStore(items: seq<Json>, i: nat, st: Store, count: nat, env: LegacyEnv)
    requires i <= |items|
    requires IndexConsistent(st)
    ensures IndexConsistent(Process(items, i, st, count, env).1)
    ensures st.reviews.Keys <= Process(items, i, st, count, env).1.reviews.Keys
  {
    WalkKeepsStore(ReadWith(env), env.tx, items, i, st, count);
  }

  /** The count importAll returns: 0 on every early exit, otherwise the
      number of accepted nodes whose upsert commits before the first
      failure; when every upsert commits, the number of accepted nodes. */
  lemma ImportCount(props: AppProperties, response: HttpResult, env: LegacyEnv, st: Store)
    requires IndexConsistent(st)
    ensures IndexConsistent(ImportSpec(props, response, env, st).1)
    ensures props.url.None? || props.key.None? || response.TransportFailure? ==> ImportSpec(props, response, env, st) == (0, st)
    ensures response.HttpResponse? && !(200 <= response.status < 300) ==> ImportSpec(props, response, env, st) == (0, st)
    ensures response.HttpResponse? &&
            (response.body.None? || response.body.value.Unparseable? || ReviewList(response.body.value.root).None?) ==>
      ImportSpec(props, response, env, st) == (0, st)
    ensures props.url.Some? && props.key.Some? && response.HttpResponse? && 200 <= response.status < 300
            && response.body.Some? && response.body.value.Parsed? && ReviewList(response.body.value.root).Some? ==>
      var items := ReviewList(response.body.value.root).value;
      && ImportSpec(props, response, env, st).0 == CommittedPrefix(env.tx, 0, |Accepted(items, env)|)
      && ((forall k: nat :: k < |Accepted(items, env)| ==> env.tx(k).Commits?) ==>
            ImportSpec(props, response, env, st).0 == |Accepted(items, env)|)
      && ImportSpec(props, response, env, st).0 <= |Accepted(items, env)|
      && ImportSpec(props, response, env, st).1 ==
           Fold(st, Accepted(items, env)[..ImportSpec(props, response, env, st).0], env.tx, 0)
  {
    if props.url.Some? && props.key.Some? && response.HttpResponse? && 200 <= response.status < 300
       && response.body.Some? && response.body.value.Parsed? && ReviewList(response.body.value.root).Some? {
      WalkFromStart(ReviewList(response.body.value.root).value, st, env);
    }
  }

  /** The walk over a whole node list from an empty count. */
  lemma WalkFromStart(items: seq<Json>, st: Store, env: LegacyEnv)
    requires IndexConsistent(st)
    ensures var w := Process(items, 0, st, 0, env);
      && IndexConsistent(w.1)
      && w.0 == CommittedPrefix(env.tx, 0, |Accepted(items, env)|)
      && ((forall k: nat :: k < |Accepted(items, env)| ==> env.tx(k).Commits?) ==> w.0 == |Accepted(items, env)|)
      && w.0 <= |Accepted(items, env)|
      && w.1 == Fold(st, Accepted(items, env)[..w.0], env.tx, 0)
  {
    assert items[0..] == items;
    ProcessCount(items, 0, st, 0, env);
    ProcessKeepsStore(items, 0, st, 0, env);
    ProcessStore(items, 0, st, 0, env);
    if forall k: nat :: k < |Accepted(items, env)| ==> env.tx(k).Commits? {
      AllCommitted(env.tx, 0, |Accepted(items, env)|);
    }
  }

  lemma {:induction false} AllCommitted(tx: nat -> Transaction, start: nat, n: nat)
    requires start <= n
    requires forall k: nat :: start <= k < n ==> tx(k).Commits?
    ensures CommittedPrefix(tx, start, n) == n
    decreases n - start
  {
    if start < n {
      AllCommitted(tx, start + 1, n);
    }
  }

  /** The tag loop of importAll. */
  method CollectTagTexts(items: seq<Json>) returns (tags: set<string>)
    ensures tags == TagTexts(items)
  {
    tags := {};
    var i := 0;
    while i < |items|
      invariant 0 <= i <= |items|
      invariant tags == TagTexts(items[..i])
    {
      if !items[i].JNull? {
        tags := tags + {AsText(items[i])};
      }
      assert items[..i + 1] == items[..i] + [items[i]];
      i := i + 1;
    }
    assert items[..i] == items;
  }

  /** The body of importAll's loop up to the upsert call: read the node's
      fields and tags, then apply the null and rating checks. */
  method ReadNode(n: Json, env: LegacyEnv) returns (candidate: Option<UpsertArgs>)
    ensures candidate == Candidate(n, env)
  {
    var externalId := Text(n, "id");
    var source := Text(n, "source");
    var author := Text(n, "author");
    var rating := if HasNonNull(n, "rating") then Some(AsInt(n.fields["rating"], env)) else None;
    var content := Text(n, "content");
    var dateText := Text(n, "reviewDate");
    var reviewDate := if dateText.Some? then env.parseDate(dateText.value) else None;
    var tags: set<string> := {};
    if n.JObject? && "tags" in n.fields && n.fields["tags"].JArray? {
      tags := CollectTagTexts(n.fields["tags"].items);
    }
    if externalId.None? || source.None? {
      return None;
    }
    if rating.Some? && (rating.value < 1 || rating.value > 5) {
      return None;
    }
    candidate := Some(UpsertArgs(source.value, externalId.value, author, rating, content, reviewDate, Some(Lift(tags))));
  }

  class ImportService {
    const props: AppProperties
    const reviewService: ReviewService

    constructor (props: AppProperties, reviewService: ReviewService)
      ensures this.props == props && this.reviewService == reviewService
    {
      this.props := props;
      this.reviewService := reviewService;
    }

    /** importAll: one GET, then one upsert per acceptable node; returns the
        number of upserts that went through. */
    method ImportAll(response: HttpResult, env: LegacyEnv) returns (count: int)
      requires reviewService.Valid()
      modifies reviewService
      ensures reviewService.Valid()
      ensures (count, reviewService.State()) == ImportSpec(props, response, env, old(reviewService.State()))
    {
      if props.url.None? || props.key.None? {
        return 0;
      }
      count := 0;
      if response.TransportFailure? {
        return 0;
      }
      if !(200 <= response.status < 300) || response.body.None? {
        return 0;
      }
      if response.body.value.Unparseable? {
        return 0;
      }
      var root := response.body.value.root;
      var list := if root.JArray? then Some(root) else if root.JObject? && "reviews" in root.fields then Some(root.fields["reviews"]) else None;
      if list.None? || !list.value.JArray? {
        return 0;
      }
      var items := list.value.items;
      assert ReviewList(root) == Some(items);
      count := WalkNodes(items, env);
    }

    /** The for loop of importAll: upsert each acceptable node in turn,
        counting the calls that return; a failing call ends the walk. */
    method WalkNodes(items: seq<Json>, env: LegacyEnv) returns (count: int)
      requires reviewService.Valid()
      modifies reviewService
      ensures reviewService.Valid()
      ensures (count, reviewService.State()) == Process(items, 0, old(reviewService.State()), 0, env)
    {
      count := 0;
      ghost var final := Process(items, 0, reviewService.State(), 0, env);
      var i := 0;
      while i < |items|
        invariant 0 <= i <= |items| && 0 <= count
        invariant reviewService.Valid()
        invariant Process(items, i, reviewService.State(), count, env) == final
        decreases |items| - i
      {
        ghost var st0 := reviewService.State();
        var candidate := ReadNode(items[i], env);
        if candidate.None? {
          assert Process(items, i, st0, count, env) == Process(items, i + 1, st0, count, env);
          i := i + 1;
          continue;
        }
        var tx := env.tx(count);
        var saved := reviewService.Upsert(candidate.value, tx);
        if saved.Failure? {
          // the catch around the loop returns the count reached so far
          assert Process(items, i, st0, count, env) == (count, st0);
          return count;
        }
        assert Process(items, i, st0, count, env) == Process(items, i + 1, reviewService.State(), count + 1, env);
        count := count + 1;
        i := i + 1;
      }
    }
  }
}
