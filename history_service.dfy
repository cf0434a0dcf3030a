/**
 * QaHistoryService of the history service: an append-only log of question/answer records
 * (the `qa_history` table), listed and paged per user, newest first. Records are only
 * ever inserted, each with the next auto-increment id, so insertion order, id order and
 * create_time order agree.
 */
module QaHistoryLog {
  import opened Wrappers
  import opened JavaLang
  import opened Paging

  /** A row of `qa_history`; every column but the id comes from the saved request body
      and may be null. */
  datatype QaHistory = QaHistory(id: int, userId: Option<int>, question: Option<string>, answer: Option<string>)

  /** Ids grow along the log. */
  predicate Ascending(log: seq<QaHistory>)
  {
    forall i, j :: 0 <= i < j < |log| ==> log[i].id < log[j].id
  }

  /** Ids shrink along a listing: the latest record first. */
  predicate NewestFirst(r: seq<QaHistory>)
  {
    forall i, j :: 0 <= i < j < |r| ==> r[i].id > r[j].id
  }

  /** `WHERE user_id = ? ORDER BY create_time DESC` (getHistoryByUserId): the user's records,
      the latest first. */
  function ForUser(log: seq<QaHistory>, userId: int): (r: seq<QaHistory>)
    ensures |r| <= |log|
  {
    if log == [] then []
    else
      var last := log[|log| - 1];
      (if last.userId == Some(userId) then [last] else []) + ForUser(log[..|log| - 1], userId)
  }

  /** `SELECT * FROM qa_history WHERE id = ?` (getHistoryById). */
  function FindById(log: seq<QaHistory>, id: int): (r: Option<QaHistory>)
    ensures r.Some? ==> r.value in log && r.value.id == id
    ensures r.None? ==> forall h :: h in log ==> h.id != id
  {
    if log == [] then None
    else if log[0].id == id then Some(log[0])
    else FindById(log[1..], id)
  }

  /** getHistoryByUserIdWithPagination: a LIMIT query over the user's newest-first records
      and a count of all of them. */
  function HistoryPage(log: seq<QaHistory>, userId: int, page: Int32, size: Int32): Result<PageResult<QaHistory>, string>
  {
    Page(ForUser(log, userId), page, size)
  }

  class QaHistoryService {
    /** The records in insertion order. */
    var log: seq<QaHistory>
    /** The next auto-increment id. */
    var nextId: int

    ghost predicate Valid()
      reads this
    {
      Ascending(log) && forall h :: h in log ==> h.id < nextId
    }

    constructor ()
      ensures log == [] && nextId == 1 && Valid()
    {
      log := [];
      nextId := 1;
    }

    /** saveHistory: appends exactly one record, with the generated id, and changes none of
        the others. */
    method SaveHistory(h: QaHistory)
      requires Valid()
      modifies this
      ensures Valid()
      ensures log == old(log) + [h.(id := old(nextId))] && nextId == old(nextId) + 1
    {
      var saved := h.(id := nextId);
      assert forall i :: 0 <= i < |log| ==> log[i] in log;
      log := log + [saved];
      nextId := nextId + 1;
    }
  }

  /** The listing holds exactly the user's records. */
  lemma {:induction false} ForUserMembers(log: seq<QaHistory>, userId: int)
    ensures forall h :: h in ForUser(log, userId) <==> h in log && h.userId == Some(userId)
  {
    if log != [] {
      var init := log[..|log| - 1];
      ForUserMembers(init, userId);
      assert log == init + [log[|log| - 1]];
    }
  }

  /** Saving a record puts it at the head of its user's listing and leaves every other
      listing as it was. */
  lemma SaveThenList(log: seq<QaHistory>, h: QaHistory, userId: int)
    ensures ForUser(log + [h], userId) == if h.userId == Some(userId) then [h] + ForUser(log, userId) else ForUser(log, userId)
  {
    assert (log + [h])[..|log|] == log;
  }

  /** On a log whose ids grow, each listing is newest first: its ids strictly decrease. */
  lemma {:induction false} ForUserNewestFirst(log: seq<QaHistory>, userId: int)
    requires Ascending(log)
    ensures NewestFirst(ForUser(log, userId))
  {
    if log != [] {
      var init := log[..|log| - 1];
      var last := log[|log| - 1];
      assert Ascending(init);
      ForUserNewestFirst(init, userId);
      ForUserMembers(init, userId);
      var rest := ForUser(init, userId);
      if last.userId != Some(userId) {
        assert ForUser(log, userId) == [] + rest == rest;
      } else {
        var r := [last] + rest;
        assert ForUser(log, userId) == r;
        forall i, j | 0 <= i < j < |r|
          ensures r[i].id > r[j].id
        {
          assert r[j] == rest[j - 1] && rest[j - 1] in init;
          if i > 0 {
            assert r[i] == rest[i - 1];
          } else {
            var k :| 0 <= k < |init| && init[k] == rest[j - 1];
            assert log[k] == init[k];
          }
        }
      }
    }
  }

  /** A page of a user's history echoes page and size, counts all of the user's records
      whatever the page, and holds at most `size` of them, each the user's. */
  lemma HistoryPageSpec(log: seq<QaHistory>, userId: int, page: Int32, size: Int32)
    requires HistoryPage(log, userId, page, size).Ok?
    ensures HistoryPage(log, userId, page, size).value.page == page
    ensures HistoryPage(log, userId, page, size).value.size == size
    ensures HistoryPage(log, userId, page, size).value.total == |ForUser(log, userId)|
    ensures |HistoryPage(log, userId, page, size).value.data| <= size
    ensures forall h :: h in HistoryPage(log, userId, page, size).value.data ==> h in log && h.userId == Some(userId)
  {
    var rows := ForUser(log, userId);
    PageSpec(rows, page, size);
    ForUserMembers(log, userId);
    var p := HistoryPage(log, userId, page, size).value;
    forall h | h in p.data
      ensures h in rows
    {
      var k :| 0 <= k < |p.data| && p.data[k] == h;
      assert p.data[k] == rows[Offset(page, size) + k];
    }
  }

  /** A saved record is found by its id, and every other lookup is as before. */
  lemma {:induction false} SaveThenFind(log: seq<QaHistory>, h: QaHistory, id: int)
    requires FindById(log, h.id).None?
    ensures FindById(log + [h], id) == if id == h.id then Some(h) else FindById(log, id)
  {
    if log != [] {
      assert (log + [h])[1..] == log[1..] + [h];
      SaveThenFind(log[1..], h, id);
    }
  }
}
