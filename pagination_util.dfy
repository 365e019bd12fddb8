/**
 * PaginationUtil: turns a client's 1-based page number and requested size
 * into a Spring Data page request (0-based page, size clamped to [1, 200]).
 */
module PaginationUtil {
  import opened Wrappers

  const MIN_SIZE: int := 1
  const MAX_SIZE: int := 200

  /** A Java int. */
  type Int32 = x: int | -0x8000_0000 <= x < 0x8000_0000

  /** Java int arithmetic: the result of an int operation, wrapped into 32 bits. */
  function Wrap32(x: int): (r: Int32)
    ensures (r - x) % 0x1_0000_0000 == 0
  {
    (x + 0x8000_0000) % 0x1_0000_0000 - 0x8000_0000
  }

  function Max(a: int, b: int): int { if a >= b then a else b }
  function Min(a: int, b: int): int { if a <= b then a else b }

  /** One sort order of a Spring Data Sort. */
  datatype Order = Order(property: string, ascending: bool)

  /** Spring Data's Sort; Unsorted is Sort.unsorted(). */
  datatype Sort = Unsorted | SortBy(orders: seq<Order>)

  /** PageRequest.of(page, size, sort); Spring rejects page < 0 and size < 1,
      so the page is a nat and the size is checked by CreatePageable's contract. */
  datatype Pageable = PageRequest(page: nat, size: int, sort: Sort)

  /** Math.max(0, page - 1) exactly as the Java int expression evaluates it. */
  function ZeroBasedAsWritten(page: Int32): Int32 {
    Max(0, Wrap32(page - 1))
  }

  /** For Integer.MIN_VALUE, page - 1 wraps to Integer.MAX_VALUE, so the
      request goes to the last possible page instead of the first. */
  lemma MinValuePageWraps()
    ensures ZeroBasedAsWritten(-0x8000_0000) == 0x7FFF_FFFF
  {
  }

  /** The 0-based page the code evidently intends: page - 1, never below 0. */
  function ZeroBased(page: Int32): (z: Int32)
    ensures z >= 0
    ensures page >= 1 ==> z == page - 1
    ensures page <= 1 ==> z == 0
  {
    if page <= 1 then 0 else page - 1
  }

  /** Everywhere except Integer.MIN_VALUE, the code as written agrees with the
      intended conversion. */
  lemma ZeroBasedAgreesAwayFromMinValue(page: Int32)
    requires page != -0x8000_0000
    ensures ZeroBasedAsWritten(page) == ZeroBased(page)
  {
  }

  /** Math.min(Math.max(size, MIN_SIZE), MAX_SIZE). */
  function ClampSize(size: Int32): (c: Int32)
    ensures MIN_SIZE <= c <= MAX_SIZE
    ensures MIN_SIZE <= size <= MAX_SIZE ==> c == size
    ensures size < MIN_SIZE ==> c == MIN_SIZE
    ensures size > MAX_SIZE ==> c == MAX_SIZE
  {
    Min(Max(size, MIN_SIZE), MAX_SIZE)
  }

  /** Clamping an already clamped size changes nothing. */
  lemma ClampIdempotent(size: Int32)
    ensures ClampSize(ClampSize(size)) == ClampSize(size)
  {
  }

  /** createPageable(page, size, sort): a null sort becomes unsorted. */
  function CreatePageable(page: Int32, size: Int32, sort: Option<Sort>): (p: Pageable)
    ensures p.page == ZeroBased(page)
    ensures MIN_SIZE <= p.size <= MAX_SIZE && p.size == ClampSize(size)
    ensures p.sort == if sort.Some? then sort.value else Unsorted
  {
    PageRequest(ZeroBased(page), ClampSize(size), sort.GetOr(Unsorted))
  }

  /** createPageable(page, size): the overload without a sort. */
  function CreatePageableUnsorted(page: Int32, size: Int32): (p: Pageable)
    ensures p == CreatePageable(page, size, None)
    ensures p.sort == Unsorted
  {
    CreatePageable(page, size, Some(Unsorted))
  }
}
