/**
 * Paging shared by the knowledge and history services: the offset `(page - 1) * size` in
 * Java int arithmetic, MySQL's `LIMIT offset, size`, and the PageResult record.
 */
module Paging {
  import opened Wrappers
  import opened JavaLang

  /** PageResult.of(data, total, page, size). */
  datatype PageResult<T> = PageResult(data: seq<T>, total: int, page: int, size: int)

  /** `int offset = (page - 1) * size;` with Java's 32-bit wrap-around on each operation. */
  function Offset(page: Int32, size: Int32): Int32
  {
    Wrap32(Wrap32(page - 1) * size)
  }

  /** Without overflow the offset is the arithmetic one; in particular page 1 starts at 0. */
  lemma OffsetExact(page: Int32, size: Int32)
    requires -0x8000_0000 < page
    requires -0x8000_0000 <= (page - 1) * size < 0x8000_0000
    ensures Offset(page, size) == (page - 1) * size
  {
  }

  const NEGATIVE_LIMIT: string := "SQL syntax error: negative LIMIT argument"

  /** `LIMIT offset, size` over rows in query order: a negative argument is rejected by the
      database, otherwise the rows from `offset` on, at most `size` of them. */
  function Limit<T>(rows: seq<T>, offset: int, size: int): (r: Result<seq<T>, string>)
    ensures r.Err? <==> offset < 0 || size < 0
    ensures r.Ok? ==> |r.value| <= size
    ensures r.Ok? ==> forall k :: 0 <= k < |r.value| ==> offset + k < |rows| && r.value[k] == rows[offset + k]
    ensures r.Ok? && |r.value| < size ==> offset + |r.value| >= |rows|
  {
    if offset < 0 || size < 0 then Err(NEGATIVE_LIMIT)
    else if offset >= |rows| then Ok([])
    else Ok(rows[offset..if offset + size <= |rows| then offset + size else |rows|])
  }

  /** The page query both services run: one LIMIT query over the ordered rows and one
      count of all of them. */
  function Page<T>(rows: seq<T>, page: Int32, size: Int32): Result<PageResult<T>, string>
  {
    match Limit(rows, Offset(page, size), size)
    case Err(e) => Err(e)
    case Ok(data) => Ok(PageResult(data, |rows|, page, size))
  }

  /** A page echoes page and size, counts every row whatever the page, and holds at most
      `size` consecutive rows starting at the offset. */
  lemma PageSpec<T>(rows: seq<T>, page: Int32, size: Int32)
    requires Page(rows, page, size).Ok?
    ensures var p := Page(rows, page, size).value; var off := Offset(page, size);
      && p.page == page && p.size == size && p.total == |rows|
      && |p.data| <= size
      && 0 <= off
      && (off < |rows| ==> p.data == rows[off..off + |p.data|])
      && (off >= |rows| ==> p.data == [])
      && (|p.data| < size ==> off + |p.data| >= |rows|)
  {
  }

  /** Page 1 is the first `size` rows. */
  lemma FirstPage<T>(rows: seq<T>, size: Int32)
    requires 0 <= size
    ensures Page(rows, 1, size).Ok?
    ensures Page(rows, 1, size).value.data == rows[..if size <= |rows| then size else |rows|]
  {
    OffsetExact(1, size);
  }

  /** Without the missing `page < 1` guard, page 0 (or below) fails in the database. */
  lemma PageBelowOneFails<T>(rows: seq<T>, page: Int32, size: Int32)
    requires -0x8000_0000 < page < 1 && 0 < size
    requires -0x8000_0000 <= (page - 1) * size
    ensures Page(rows, page, size).Err?
  {
    OffsetExact(page, size);
  }

  lemma Distribute(p: int, s: int)
    requires 1 <= p && 0 <= s
    ensures 0 <= (p - 1) * s
    ensures (p + 1) * s == p * s + s && p * s == (p - 1) * s + s
  {
  }

  /** The rows at positions lo until hi, cut off at the end of the rows. */
  function Window<T>(rows: seq<T>, lo: int, hi: int): seq<T>
  {
    if lo < 0 || hi < lo then []
    else if hi <= |rows| then rows[lo..hi]
    else if lo <= |rows| then rows[lo..]
    else []
  }

  /** The rows of a page whose offset is known and not negative. */
  lemma PageAt<T>(rows: seq<T>, page: Int32, size: Int32, off: nat)
    requires Offset(page, size) == off && 0 <= size
    ensures Page(rows, page, size).Ok?
    ensures Page(rows, page, size).value.data == Window(rows, off, off + size)
  {
  }

  /** Consecutive pages join up: page p followed by page p + 1 is the slice of two pages. */
  lemma ConsecutivePages<T>(rows: seq<T>, page: Int32, size: Int32)
    requires 1 <= page < 0x7FFF_FFFF && 0 <= size && (page + 1) * size < 0x8000_0000
    ensures Page(rows, page, size).Ok? && Page(rows, page + 1, size).Ok?
    ensures Page(rows, page, size).value.data + Page(rows, page + 1, size).value.data
        == Window(rows, (page - 1) * size, (page + 1) * size)
  {
    Distribute(page, size);
    var lo, mid, hi := (page - 1) * size, page * size, (page + 1) * size;
    assert Offset(page, size) == lo by { OffsetExact(page, size); }
    assert Offset(page + 1, size) == mid by { OffsetExact(page + 1, size); }
    PageAt(rows, page, size, lo);
    PageAt(rows, page + 1, size, mid);
    JoinSlices(rows, lo, mid, hi);
  }

  lemma JoinSlices<T>(rows: seq<T>, lo: nat, mid: nat, hi: nat)
    requires lo <= mid <= hi
    ensures Window(rows, lo, mid) + Window(rows, mid, hi) == Window(rows, lo, hi)
  {
    if hi <= |rows| {
      assert rows[lo..mid] + rows[mid..hi] == rows[lo..hi];
    } else if mid <= |rows| {
      assert rows[lo..mid] + rows[mid..] == rows[lo..];
    }
  }
}
