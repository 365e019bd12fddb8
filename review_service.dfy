/**
 * ReviewService: the per-record store operations. upsert finds the review
 * with a given (source, externalId) or creates one, overwrites its fields,
 * stamps it and replaces its tag set; delete and get work by surrogate id.
 */
module Reviews {
  import opened Wrappers
  import opened JavaText
  import opened Schema

  /** A stored Review entity with its tag set. */
  datatype Review = Review(
    id: int,
    source: string,
    externalId: string,
    author: Option<string>,
    rating: Option<int>,
    content: Option<string>,
    reviewDate: Option<Timestamp>,
    createdAt: Timestamp,
    updatedAt: Timestamp,
    tags: set<string>)

  /** The view of a review handed to API callers. */
  datatype ReviewDto = ReviewDto(
    id: int,
    source: string,
    externalId: string,
    author: Option<string>,
    rating: Option<int>,
    content: Option<string>,
    reviewDate: Option<Timestamp>,
    tags: set<string>)

  /** The outcome of get: the review, or NotFoundException. */
  datatype Lookup = Found(dto: ReviewDto) | NotFound(id: int)

  /** The arguments of upsert. The tag set may be null and may hold nulls. */
  datatype UpsertArgs = UpsertArgs(
    source: string,
    externalId: string,
    author: Option<string>,
    rating: Option<int>,
    content: Option<string>,
    reviewDate: Option<Timestamp>,
    tags: Option<set<Option<string>>>)

  function KeyOf(r: Review): NaturalKey {
    NaturalKey(r.source, r.externalId)
  }

  function ArgsKey(a: UpsertArgs): NaturalKey {
    NaturalKey(a.source, a.externalId)
  }

  /** The tag set upsert stores: the trimmed form of every non-null,
      non-blank input; none for a null input. */
  function NormalizeTags(tags: Option<set<Option<string>>>): set<string> {
    if tags.None? then {}
    else set t | t in tags.value && t.Some? && !IsBlank(t.value) :: Trim(t.value)
  }

  /** Every stored tag comes from a non-blank input and has no removable
      characters at either end; a null input stores no tags. */
  lemma NormalizeTagsProperties(tags: Option<set<Option<string>>>)
    ensures tags.None? ==> NormalizeTags(tags) == {}
    ensures forall t :: t in NormalizeTags(tags) ==>
      (exists s :: Some(s) in tags.value && !IsBlank(s) && Trim(s) == t)
    ensures forall t :: t in NormalizeTags(tags) ==>
      t == [] || (!IsTrimmable(t[0]) && !IsTrimmable(t[|t| - 1]))
    ensures forall s :: tags.Some? && Some(s) in tags.value && !IsBlank(s) ==> Trim(s) in NormalizeTags(tags)
  {
    forall t | t in NormalizeTags(tags)
      ensures t == [] || (!IsTrimmable(t[0]) && !IsTrimmable(t[|t| - 1]))
    {
      var o :| o in tags.value && o.Some? && !IsBlank(o.value) && Trim(o.value) == t;
      TrimIdempotent(o.value);
    }
  }

  /** isBlank and trim disagree on control characters: U+0001 is not
      whitespace, so the tag passes the blank check, but trim removes it and
      the empty string is stored as a tag. */
  lemma ControlCharacterTagTrimsToEmpty()
    ensures NormalizeTags(Some({Some("\U{1}")})) == {""}
  {
    assert !IsBlank("\U{1}") by { assert !IsWhitespace("\U{1}"[0]); }
    assert Trim("\U{1}") == "";
  }

  /** The tag loop of upsert: adds the trimmed form of each non-null,
      non-blank input to an initially empty set. */
  method CollectTags(input: set<Option<string>>) returns (tags: set<string>)
    ensures tags == NormalizeTags(Some(input))
  {
    tags := {};
    var remaining := input;
    while remaining != {}
      invariant remaining <= input
      invariant tags == NormalizeTags(Some(input - remaining))
      decreases remaining
    {
      var t :| t in remaining;
      ghost var done := input - remaining;
      if t.Some? && !IsBlank(t.value) {
        tags := tags + {Trim(t.value)};
      }
      remaining := remaining - {t};
      assert input - remaining == done + {t};
    }
    assert input - remaining == input;
  }

  /** How the transaction around one upsert ends: it commits, with the
      clock reading taken during the call, or the save throws and it rolls back. */
  datatype Transaction = Commits(now: Timestamp) | RollsBack

  /** The state of the store: reviews by surrogate id, the unique index on
      (source, external_id), and the next identity value. */
  datatype Store = Store(reviews: map<int, Review>, byKey: map<NaturalKey, int>, nextId: int)

  /** Each review is stored under its own id, ids are below nextId, and the
      key index maps every review's key to its id and nothing else. */
  predicate IndexConsistent(st: Store) {
    && st.nextId >= 1
    && (forall id :: id in st.reviews ==> st.reviews[id].id == id && 1 <= id < st.nextId)
    && (forall id :: id in st.reviews ==> KeyOf(st.reviews[id]) in st.byKey && st.byKey[KeyOf(st.reviews[id])] == id)
    && (forall k :: k in st.byKey ==> st.byKey[k] in st.reviews && KeyOf(st.reviews[st.byKey[k]]) == k)
  }

  /** Natural-key uniqueness: no two stored reviews share (source, external_id). */
  lemma UniqueNaturalKey(st: Store, i: int, j: int)
    requires IndexConsistent(st)
    requires i in st.reviews && j in st.reviews
    requires KeyOf(st.reviews[i]) == KeyOf(st.reviews[j])
    ensures i == j
  {
  }

  /** upsert as a transition of the store; returns the saved review. */
  function UpsertSpec(st: Store, a: UpsertArgs, now: Timestamp): (Store, Review) {
    var k := ArgsKey(a);
    var existing := k in st.byKey && st.byKey[k] in st.reviews;
    var id := if existing then st.byKey[k] else st.nextId;
    var createdAt := if existing then st.reviews[id].createdAt else now;
    var r := Review(id, a.source, a.externalId, a.author, a.rating, a.content, a.reviewDate,
                    createdAt, now, NormalizeTags(a.tags));
    (Store(st.reviews[id := r], st.byKey[k := id], if existing then st.nextId else st.nextId + 1), r)
  }

  /** upsert keeps the index consistent and never creates a second review
      for a key: an existing key's review is reused (same id, same
      createdAt), a new key gets a fresh id with createdAt == updatedAt ==
      now; the other reviews are untouched. */
  lemma UpsertSemantics(st: Store, a: UpsertArgs, now: Timestamp)
    requires IndexConsistent(st)
    ensures var (st', r) := UpsertSpec(st, a, now);
      && IndexConsistent(st')
      && st'.reviews.Keys == st.reviews.Keys + {r.id}
      && KeyOf(r) == ArgsKey(a)
      && (ArgsKey(a) in st.byKey ==> r.id == st.byKey[ArgsKey(a)] && r.createdAt == st.reviews[r.id].createdAt
                                     && |st'.reviews| == |st.reviews|)
      && (ArgsKey(a) !in st.byKey ==> r.id !in st.reviews && r.createdAt == now
                                      && |st'.reviews| == |st.reviews| + 1)
      && r.updatedAt == now
      && r.author == a.author && r.rating == a.rating && r.content == a.content && r.reviewDate == a.reviewDate
      && r.tags == NormalizeTags(a.tags)
      && st'.reviews[r.id] == r
      && (forall id :: id in st.reviews && id != r.id ==> st'.reviews[id] == st.reviews[id])
  {
    var (st', r) := UpsertSpec(st, a, now);
    if ArgsKey(a) !in st.byKey {
      assert st.nextId !in st.reviews;
      assert |st.reviews.Keys + {st.nextId}| == |st.reviews.Keys| + 1;
      assert st'.reviews.Keys == st.reviews.Keys + {st.nextId};
    } else {
      assert st'.reviews.Keys == st.reviews.Keys;
    }
    UpsertKeepsIndex(st, a, now);
  }

  /** upsert keeps the index consistent and keeps every stored id. */
  lemma UpsertKeepsIndex(st: Store, a: UpsertArgs, now: Timestamp)
    requires IndexConsistent(st)
    ensures IndexConsistent(UpsertSpec(st, a, now).0)
    ensures st.reviews.Keys <= UpsertSpec(st, a, now).0.reviews.Keys
  {
    var (st', r) := UpsertSpec(st, a, now);
    var k := ArgsKey(a);
    forall id | id in st'.reviews
      ensures KeyOf(st'.reviews[id]) in st'.byKey && st'.byKey[KeyOf(st'.reviews[id])] == id
    {
      if id != r.id {
        assert KeyOf(st.reviews[id]) != k;
      }
    }
  }

  /** Upserting the same arguments again changes only updatedAt. */
  lemma UpsertTwice(st: Store, a: UpsertArgs, now1: Timestamp, now2: Timestamp)
    requires IndexConsistent(st)
    ensures var (st1, r1) := UpsertSpec(st, a, now1);
            var (st2, r2) := UpsertSpec(st1, a, now2);
            && st2.reviews == st1.reviews[r1.id := r1.(updatedAt := now2)]
            && st2.byKey == st1.byKey && st2.nextId == st1.nextId
            && r2 == r1.(updatedAt := now2)
  {
    UpsertSemantics(st, a, now1);
  }

  /** delete as a transition: the review and its index entry go away; a
      missing id leaves the store as it is. */
  function DeleteSpec(st: Store, id: int): Store {
    if id in st.reviews then Store(st.reviews - {id}, st.byKey - {KeyOf(st.reviews[id])}, st.nextId)
    else st
  }

  /** After delete the id is absent, everything else is kept, the index
      stays consistent, and deleting again changes nothing. */
  lemma DeleteSemantics(st: Store, id: int)
    requires IndexConsistent(st)
    ensures IndexConsistent(DeleteSpec(st, id))
    ensures id !in DeleteSpec(st, id).reviews
    ensures forall j :: j in st.reviews && j != id ==> j in DeleteSpec(st, id).reviews && DeleteSpec(st, id).reviews[j] == st.reviews[j]
    ensures id !in st.reviews ==> DeleteSpec(st, id) == st
    ensures DeleteSpec(DeleteSpec(st, id), id) == DeleteSpec(st, id)
  {
    if id in st.reviews {
      var st' := DeleteSpec(st, id);
      forall j | j in st'.reviews
        ensures KeyOf(st'.reviews[j]) in st'.byKey && st'.byKey[KeyOf(st'.reviews[j])] == j
      {
        assert KeyOf(st.reviews[j]) != KeyOf(st.reviews[id]);
      }
    }
  }

  /** toDto: copies every field except the two timestamps. */
  function ToDto(r: Review): (d: ReviewDto)
    ensures d.id == r.id && d.source == r.source && d.externalId == r.externalId
    ensures d.author == r.author && d.rating == r.rating && d.content == r.content
    ensures d.reviewDate == r.reviewDate && d.tags == r.tags
  {
    ReviewDto(r.id, r.source, r.externalId, r.author, r.rating, r.content, r.reviewDate, r.tags)
  }

  /** Two reviews have the same DTO exactly when they differ at most in
      their timestamps. */
  lemma ToDtoForgetsOnlyTimestamps(a: Review, b: Review)
    ensures ToDto(a) == ToDto(b) <==> a == b.(createdAt := a.createdAt, updatedAt := a.updatedAt)
  {
  }

  class ReviewService {
    var reviews: map<int, Review>
    var byKey: map<NaturalKey, int>
    var nextId: int

    ghost function State(): Store
      reads this
    {
      Store(reviews, byKey, nextId)
    }

    ghost predicate Valid()
      reads this
    {
      IndexConsistent(State())
    }

    constructor ()
      ensures Valid() && reviews == map[] && byKey == map[]
    {
      reviews := map[];
      byKey := map[];
      nextId := 1;
    }

    /** get: NotFoundException for a missing id, else the review's fields. */
    function Get(id: int): (r: Lookup)
      reads this
      ensures r.NotFound? <==> id !in reviews
      ensures r.Found? ==> r.dto == ToDto(reviews[id]) && r.dto.id == reviews[id].id
    {
      if id in reviews then Found(ToDto(reviews[id])) else NotFound(id)
    }

    /** delete: removes the review when it exists; otherwise nothing happens. */
    method Delete(id: int)
      requires Valid()
      modifies this
      ensures Valid()
      ensures State() == DeleteSpec(old(State()), id)
      ensures id !in reviews
      ensures Get(id) == NotFound(id)
      ensures forall j :: j != id && j in old(reviews) ==> Get(j) == Found(ToDto(old(reviews)[j]))
    {
      if id in reviews {
        var k := KeyOf(reviews[id]);
        reviews := reviews - {id};
        byKey := byKey - {k};
      }
      DeleteSemantics(old(State()), id);
    }

    /** upsert: find-or-create by natural key, overwrite the fields, set
        createdAt only on creation and updatedAt always, replace the tag set,
        save. If the save throws, the transaction leaves the store unchanged. */
    method Upsert(a: UpsertArgs, tx: Transaction) returns (saved: Attempt<Review>)
      requires Valid()
      modifies this
      ensures Valid()
      ensures tx.RollsBack? ==> saved == Failure && State() == old(State())
      ensures tx.Commits? ==> saved == Success(UpsertSpec(old(State()), a, tx.now).1)
                              && State() == UpsertSpec(old(State()), a, tx.now).0
      ensures saved.Success? ==>
        var d := Get(saved.value.id);
        && d.Found? && d.dto.source == a.source && d.dto.externalId == a.externalId
        && d.dto.author == a.author && d.dto.rating == a.rating && d.dto.content == a.content
        && d.dto.reviewDate == a.reviewDate && d.dto.tags == NormalizeTags(a.tags)
    {
      // LocalDateTime.now() is read before save; on a rollback it is never stored
      var now := if tx.Commits? then tx.now else Timestamp(0);
      var k := ArgsKey(a);
      var id: int;
      var createdAt: Timestamp;
      if k in byKey && byKey[k] in reviews {
        id := byKey[k];
        createdAt := reviews[id].createdAt;
      } else {
        id := nextId;
        createdAt := now;
      }
      // r.getTags().clear(), then one add per usable input tag
      var tags: set<string> := {};
      if a.tags.Some? {
        tags := CollectTags(a.tags.value);
      }
      var r := Review(id, a.source, a.externalId, a.author, a.rating, a.content, a.reviewDate, createdAt, now, tags);
      if tx.RollsBack? {
        return Failure;
      }
      reviews := reviews[id := r];
      byKey := byKey[k := id];
      if id == nextId {
        nextId := nextId + 1;
      }
      UpsertSemantics(old(State()), a, now);
      saved := Success(r);
    }
  }
}
