/**
 * BulkReviewWriter: writes one page of validated records into the reviews
 * table as a single transactional batch of MySQL
 * INSERT ... ON DUPLICATE KEY UPDATE statements, all stamped with one
 * timestamp, and turns the JDBC per-statement result codes into a count.
 */
module BulkWriter {
  import opened Wrappers
  import opened Schema
  import opened Upstream

  /** The non-key columns of a row of the reviews table. */
  datatype StoredRow = StoredRow(
    author: Option<string>,
    rating: Option<int>,
    content: Option<string>,
    reviewDate: Option<Timestamp>,
    tag: Option<string>,
    createdAt: Timestamp,
    updatedAt: Timestamp)

  /** The reviews table, keyed by its unique (source, external_id) constraint:
      a map holds at most one row per key. */
  type Table = map<NaturalKey, StoredRow>

  /** java.sql.Statement.SUCCESS_NO_INFO and EXECUTE_FAILED. */
  const SUCCESS_NO_INFO: int := -2
  const EXECUTE_FAILED: int := -3

  /** What the environment does with one upsertBatch call: the clock reading
      taken for the batch and the driver's per-statement result codes on
      commit, or a failure of the transaction (rolled back). */
  datatype BatchEnv = Committed(now: Timestamp, codes: seq<int>) | RolledBack

  /** The natural key of an incoming record; null when source or id is null
      (both columns are NOT NULL, so such a statement fails). */
  function KeyOf(r: ReviewInDto): (k: Option<NaturalKey>)
    ensures k.Some? <==> r.source.Some? && r.id.Some?
    ensures k.Some? ==> k.value.source == r.source.value && k.value.externalId == r.id.value
  {
    if r.source.Some? && r.id.Some? then Some(NaturalKey(r.source.value, r.id.value)) else None
  }

  predicate AllKeyed(rows: seq<ReviewInDto>) {
    forall i :: 0 <= i < |rows| ==> KeyOf(rows[i]).Some?
  }

  /** The keys a batch touches. */
  function BatchKeys(rows: seq<ReviewInDto>): set<NaturalKey> {
    set i | 0 <= i < |rows| && KeyOf(rows[i]).Some? :: KeyOf(rows[i]).value
  }

  /** The columns the statement binds from a record, with the batch timestamp
      for both created_at and updated_at. */
  function Bound(r: ReviewInDto, createdAt: Timestamp, now: Timestamp): StoredRow {
    StoredRow(r.author, r.rating, r.content, r.reviewDate, r.tags, createdAt, now)
  }

  /** One INSERT ... ON DUPLICATE KEY UPDATE: a new key is inserted with both
      timestamps set to now; an existing key keeps created_at and gets every
      other column from the statement. */
  function UpsertRow(t: Table, r: ReviewInDto, now: Timestamp): Table
    requires KeyOf(r).Some?
  {
    var k := KeyOf(r).value;
    t[k := Bound(r, if k in t then t[k].createdAt else now, now)]
  }

  /** The statements of a batch, executed in order. */
  function UpsertAll(t: Table, rows: seq<ReviewInDto>, now: Timestamp): Table
    requires AllKeyed(rows)
    decreases |rows|
  {
    if rows == [] then t
    else UpsertRow(UpsertAll(t, rows[..|rows| - 1], now), rows[|rows| - 1], now)
  }

  /** The last record of the batch with key k: the one whose values win. */
  function LastRowFor(rows: seq<ReviewInDto>, k: NaturalKey): (r: Option<ReviewInDto>)
    ensures r.Some? <==> k in BatchKeys(rows)
    ensures r.Some? ==> r.value in rows && KeyOf(r.value) == Some(k)
    ensures r.Some? ==> exists i :: 0 <= i < |rows| && rows[i] == r.value && KeyOf(rows[i]) == Some(k)
                                    && forall j :: i < j < |rows| ==> KeyOf(rows[j]) != Some(k)
    decreases |rows|
  {
    if rows == [] then None
    else if KeyOf(rows[|rows| - 1]) == Some(k) then Some(rows[|rows| - 1])
    else
      var prefix := rows[..|rows| - 1];
      assert BatchKeys(rows) == BatchKeys(prefix) + (if KeyOf(rows[|rows| - 1]).Some? then {KeyOf(rows[|rows| - 1]).value} else {}) by {
        forall x | x in BatchKeys(rows) ensures x in BatchKeys(prefix) + (if KeyOf(rows[|rows| - 1]).Some? then {KeyOf(rows[|rows| - 1]).value} else {}) {
          var i :| 0 <= i < |rows| && KeyOf(rows[i]).Some? && KeyOf(rows[i]).value == x;
          if i < |rows| - 1 { assert prefix[i] == rows[i]; }
        }
        forall x | x in BatchKeys(prefix) ensures x in BatchKeys(rows) {
          var i :| 0 <= i < |prefix| && KeyOf(prefix[i]).Some? && KeyOf(prefix[i]).value == x;
          assert rows[i] == prefix[i];
        }
      }
      var r := LastRowFor(prefix, k);
      assert r.Some? ==> exists i :: 0 <= i < |rows| && rows[i] == r.value && KeyOf(rows[i]) == Some(k)
                                    && forall j :: i < j < |rows| ==> KeyOf(rows[j]) != Some(k) by {
        if r.Some? {
          var i :| 0 <= i < |prefix| && prefix[i] == r.value && KeyOf(prefix[i]) == Some(k)
                   && forall j :: i < j < |prefix| ==> KeyOf(prefix[j]) != Some(k);
          assert rows[i] == prefix[i];
          forall j | i < j < |rows| ensures KeyOf(rows[j]) != Some(k) {
            if j < |prefix| { assert rows[j] == prefix[j]; }
          }
        }
      }
      r
  }

  /** What a whole batch does to the row of one key: keys outside the batch
      are untouched; a key in the batch holds the values of its last record,
      updated_at == now, and created_at == now exactly when it was new. */
  lemma {:induction false} UpsertAllAt(t: Table, rows: seq<ReviewInDto>, now: Timestamp, k: NaturalKey)
    requires AllKeyed(rows)
    ensures k in UpsertAll(t, rows, now) <==> k in t || k in BatchKeys(rows)
    ensures k !in BatchKeys(rows) && k in t ==> UpsertAll(t, rows, now)[k] == t[k]
    ensures k in BatchKeys(rows) ==>
      UpsertAll(t, rows, now)[k] == Bound(LastRowFor(rows, k).value, if k in t then t[k].createdAt else now, now)
    decreases |rows|
  {
    if rows != [] {
      var prefix := rows[..|rows| - 1];
      assert AllKeyed(prefix) by {
        forall i | 0 <= i < |prefix| ensures KeyOf(prefix[i]).Some? { assert prefix[i] == rows[i]; }
      }
      UpsertAllAt(t, prefix, now, k);
      var last := rows[|rows| - 1];
      assert KeyOf(last).Some?;
      assert KeyOf(last).value in BatchKeys(rows);
    }
  }

  /** After a batch the table holds exactly the old keys and the batch's keys. */
  lemma UpsertAllKeys(t: Table, rows: seq<ReviewInDto>, now: Timestamp)
    requires AllKeyed(rows)
    ensures UpsertAll(t, rows, now).Keys == t.Keys + BatchKeys(rows)
  {
    forall k | k in t.Keys + BatchKeys(rows) ensures k in UpsertAll(t, rows, now) { UpsertAllAt(t, rows, now, k); }
    forall k | k in UpsertAll(t, rows, now) ensures k in t.Keys + BatchKeys(rows) { UpsertAllAt(t, rows, now, k); }
  }

  /** Re-importing the same batch changes nothing but updated_at, which moves
      to the second batch's timestamp; created_at stays. */
  lemma ReimportIdempotent(t: Table, rows: seq<ReviewInDto>, now1: Timestamp, now2: Timestamp)
    requires AllKeyed(rows)
    ensures UpsertAll(UpsertAll(t, rows, now1), rows, now2).Keys == UpsertAll(t, rows, now1).Keys
    ensures forall k :: k in UpsertAll(t, rows, now1) ==>
      UpsertAll(UpsertAll(t, rows, now1), rows, now2)[k] ==
        if k in BatchKeys(rows) then UpsertAll(t, rows, now1)[k].(updatedAt := now2)
        else UpsertAll(t, rows, now1)[k]
  {
    var t1 := UpsertAll(t, rows, now1);
    UpsertAllKeys(t, rows, now1);
    UpsertAllKeys(t1, rows, now2);
    forall k | k in t1
      ensures UpsertAll(t1, rows, now2)[k] == if k in BatchKeys(rows) then t1[k].(updatedAt := now2) else t1[k]
    {
      UpsertAllAt(t, rows, now1, k);
      UpsertAllAt(t1, rows, now2, k);
    }
  }

  /** What one JDBC result code adds to the normalized count. */
  function Contribution(c: int): (n: nat)
    ensures c == SUCCESS_NO_INFO ==> n == 1
    ensures c == EXECUTE_FAILED ==> n == 0
    ensures c >= 0 ==> n == c
    ensures c < 0 && c != SUCCESS_NO_INFO ==> n == 0
  {
    if c == SUCCESS_NO_INFO then 1
    else if c == EXECUTE_FAILED then 0
    else if c >= 0 then c
    else 0
  }

  /** The normalized affected count of a batch: the sum of the contributions. */
  function NormalizedSum(codes: seq<int>): nat
    decreases |codes|
  {
    if codes == [] then 0 else NormalizedSum(codes[..|codes| - 1]) + Contribution(codes[|codes| - 1])
  }

  /** The normalized count is additive over concatenation. */
  lemma {:induction false} NormalizedSumAppend(a: seq<int>, b: seq<int>)
    ensures NormalizedSum(a + b) == NormalizedSum(a) + NormalizedSum(b)
    decreases |b|
  {
    if b == [] {
      assert a + b == a;
    } else {
      var b' := b[..|b| - 1];
      assert (a + b)[..|a + b| - 1] == a + b';
      assert (a + b)[|a + b| - 1] == b[|b| - 1];
      NormalizedSumAppend(a, b');
    }
  }

  /** A failed statement neither inflates nor zeroes the total: removing it
      leaves the count unchanged. */
  lemma FailedCodeIgnored(a: seq<int>, b: seq<int>)
    ensures NormalizedSum(a + [EXECUTE_FAILED] + b) == NormalizedSum(a + b)
  {
    NormalizedSumAppend(a + [EXECUTE_FAILED], b);
    NormalizedSumAppend(a, b);
    assert (a + [EXECUTE_FAILED])[..|a|] == a;
  }

  /** A driver that reports SUCCESS_NO_INFO (or 1) for every statement of a
      batch yields one affected row per statement. */
  lemma {:induction false} OnePerStatement(codes: seq<int>)
    requires forall i :: 0 <= i < |codes| ==> codes[i] == SUCCESS_NO_INFO || codes[i] == 1
    ensures NormalizedSum(codes) == |codes|
    decreases |codes|
  {
    if codes != [] {
      var prefix := codes[..|codes| - 1];
      assert forall i :: 0 <= i < |prefix| ==> prefix[i] == codes[i];
      OnePerStatement(prefix);
    }
  }

  /** Three inserts reported as [1, SUCCESS_NO_INFO, 1] count as 3. */
  lemma NormalizedExample()
    ensures NormalizedSum([1, SUCCESS_NO_INFO, 1]) == 3
  {
    assert [1, SUCCESS_NO_INFO, 1][..2] == [1, SUCCESS_NO_INFO];
    assert [1, SUCCESS_NO_INFO][..1] == [1];
    assert [1][..0] == [];
    assert NormalizedSum([1]) == 1;
    assert NormalizedSum([1, SUCCESS_NO_INFO]) == 2;
  }

  /** getNormalized: one pass over the result codes, accumulating the count.
      The failed-statement counter, which only feeds a log line, is not kept. */
  method GetNormalized(counts: seq<int>) returns (normalized: int)
    ensures normalized == NormalizedSum(counts)
    ensures normalized >= 0
  {
    normalized := 0;
    var i := 0;
    while i < |counts|
      invariant 0 <= i <= |counts|
      invariant normalized == NormalizedSum(counts[..i])
    {
      var c := counts[i];
      if c == SUCCESS_NO_INFO {
        normalized := normalized + 1;
      } else if c == EXECUTE_FAILED {
        // counted by the source for a log line only
      } else if c >= 0 {
        normalized := normalized + c;
      }
      assert counts[..i + 1][..i] == counts[..i];
      i := i + 1;
    }
    assert counts[..i] == counts;
  }

  class BulkReviewWriter {
    /** The reviews table as this writer sees it. */
    var table: Table

    constructor (initial: Table)
      ensures table == initial
    {
      table := initial;
    }

    /** upsertBatch: a null or empty batch is a no-op returning 0. Otherwise
        every statement runs in one transaction with one timestamp; if the
        transaction fails (or a statement lacks its key) nothing is written,
        else the table is the batch applied in order and the result is the
        normalized count of the driver's codes. */
    method UpsertBatch(rows: Option<seq<ReviewInDto>>, env: BatchEnv) returns (r: Attempt<int>)
      modifies this
      ensures rows.None? || rows.value == [] ==> r == Success(0) && table == old(table)
      ensures rows.Some? && rows.value != [] && env.Committed? && AllKeyed(rows.value) ==>
        r == Success(NormalizedSum(env.codes)) && table == UpsertAll(old(table), rows.value, env.now)
      ensures rows.Some? && rows.value != [] && !(env.Committed? && AllKeyed(rows.value)) ==>
        r == Failure && table == old(table)
    {
      if rows.None? || rows.value == [] {
        return Success(0);
      }
      if env.RolledBack? {
        return Failure;
      }
      var batch := rows.value;
      var now := env.now;
      var staged := table;
      var i := 0;
      while i < |batch|
        invariant 0 <= i <= |batch|
        invariant AllKeyed(batch[..i])
        invariant staged == UpsertAll(table, batch[..i], now)
      {
        if KeyOf(batch[i]).None? {
          return Failure;
        }
        assert batch[..i + 1][..i] == batch[..i];
        staged := UpsertRow(staged, batch[i], now);
        i := i + 1;
      }
      assert batch[..i] == batch;
      table := staged;
      var normalized := GetNormalized(env.codes);
      r := Success(normalized);
    }
  }
}
