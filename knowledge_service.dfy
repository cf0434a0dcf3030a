/**
 * KnowledgeService over the `knowledge` table. The table is the sequence of its rows in
 * the order they were last written (INSERT and UPDATE both set update_time to NOW()), so
 * `ORDER BY update_time DESC` lists it back to front. Ids come from an auto-increment
 * counter.
 */
module KnowledgeBase {
  import opened Wrappers
  import opened JavaLang
  import opened Paging

  /** A row of the table; the answer column may be NULL. */
  datatype Knowledge = Knowledge(id: int, question: string, answer: Option<string>)

  const ASK_PROMPT: string := "请输入您的问题。"
  const NOT_FOUND: string := "抱歉，我没有找到相关答案。您可以尝试用不同的方式提问，或者联系管理员添加相关问题。"

  predicate UniqueIds(rows: seq<Knowledge>)
  {
    forall i, j :: 0 <= i < j < |rows| ==> rows[i].id != rows[j].id
  }

  predicate HasId(rows: seq<Knowledge>, id: int)
  {
    exists i :: 0 <= i < |rows| && rows[i].id == id
  }

  // ---------------------------------------------------------------------------------------
  // Queries
  // ---------------------------------------------------------------------------------------

  /** `SELECT * FROM knowledge WHERE id = ?` (getKnowledgeById). */
  function FindById(rows: seq<Knowledge>, id: int): (r: Option<Knowledge>)
    ensures r.Some? ==> r.value in rows && r.value.id == id
  {
    if rows == [] then None
    else if rows[0].id == id then Some(rows[0])
    else FindById(rows[1..], id)
  }

  lemma {:induction false} FindByIdFound(rows: seq<Knowledge>, id: int)
    ensures FindById(rows, id).Some? <==> HasId(rows, id)
  {
    if rows != [] {
      FindByIdFound(rows[1..], id);
      if HasId(rows, id) && rows[0].id != id {
        var i :| 0 <= i < |rows| && rows[i].id == id;
        assert rows[1..][i - 1] == rows[i];
      }
    }
  }

  /** `ORDER BY update_time DESC`: the most recently written row first (getAllKnowledge). */
  function Newest(rows: seq<Knowledge>): (r: seq<Knowledge>)
    ensures |r| == |rows|
    ensures forall i :: 0 <= i < |rows| ==> r[i] == rows[|rows| - 1 - i]
  {
    seq(|rows|, i requires 0 <= i < |rows| => rows[|rows| - 1 - i])
  }

  /** getAllKnowledge(page, size): one LIMIT query over the newest-first listing and a
      count of the whole table. */
  function GetPage(rows: seq<Knowledge>, page: Int32, size: Int32): Result<PageResult<Knowledge>, string>
  {
    Page(Newest(rows), page, size)
  }

  /** `WHERE question = ? LIMIT 1`. The query has no ORDER BY; the row a clustered-index
      scan meets first, the one with the lowest id, is the one taken. */
  function Exact(rows: seq<Knowledge>, question: string): Option<Knowledge>
  {
    if rows == [] then None
    else
      var rest := Exact(rows[1..], question);
      if rows[0].question != question then rest
      else if rest.None? || rows[0].id < rest.value.id then Some(rows[0])
      else rest
  }

  /** The fuzzy query's order: shorter question first (CHAR_LENGTH ASC). The query leaves
      equally long questions unordered; the model takes the lower id among them. */
  predicate Shorter(a: Knowledge, b: Knowledge)
  {
    |a.question| < |b.question| || (|a.question| == |b.question| && a.id < b.id)
  }

  /** `WHERE question LIKE CONCAT('%', ?, '%') ORDER BY CHAR_LENGTH(question) ASC LIMIT 1`. */
  function Fuzzy(rows: seq<Knowledge>, question: string): Option<Knowledge>
  {
    if rows == [] then None
    else
      var rest := Fuzzy(rows[1..], question);
      if !Contains(rows[0].question, question) then rest
      else if rest.None? || Shorter(rows[0], rest.value) then Some(rows[0])
      else rest
  }

  /** askQuestion: no text asks for a question; otherwise the exact match's answer, else
      the fuzzy match's answer, else the fixed not-found reply. A matched row whose answer
      is NULL gives null. */
  function AskQuestion(rows: seq<Knowledge>, question: Option<string>): Option<string>
  {
    if !HasText(question) then Some(ASK_PROMPT)
    else
      match Exact(rows, question.value)
      case Some(k) => k.answer
      case None =>
        match Fuzzy(rows, question.value)
        case Some(k) => k.answer
        case None => Some(NOT_FOUND)
  }

  /** findByExactQuestion for the QA service: the exact match, except that a failing query,
      and a match whose answer is NULL (the log line dereferences it), end in the catch
      and give null. */
  function FindByExactQuestion(rows: seq<Knowledge>, reachable: bool, question: string): Option<Knowledge>
  {
    if !reachable then None
    else
      match Exact(rows, question)
      case None => None
      case Some(k) => if k.answer.None? then None else Some(k)
  }

  /** The LIKE test of the search query, on a nullable column. */
  predicate Mentions(column: Option<string>, query: string)
  {
    column.Some? && Contains(column.value, query)
  }

  /** searchKnowledge: rows whose question or answer contains the query, newest first. */
  function Search(rows: seq<Knowledge>, query: string): (r: seq<Knowledge>)
    ensures |r| <= |rows|
  {
    if rows == [] then []
    else
      var last := rows[|rows| - 1];
      (if Contains(last.question, query) || Mentions(last.answer, query) then [last] else [])
      + Search(rows[..|rows| - 1], query)
  }

  // ---------------------------------------------------------------------------------------
  // Writes
  // ---------------------------------------------------------------------------------------

  /** `DELETE FROM knowledge WHERE id = ?`. */
  function Without(rows: seq<Knowledge>, id: int): (r: seq<Knowledge>)
    ensures |r| <= |rows|
  {
    if rows == [] then []
    else (if rows[0].id == id then [] else [rows[0]]) + Without(rows[1..], id)
  }

  /** `UPDATE knowledge SET question = ?, answer = ?, update_time = NOW() WHERE id = ?`:
      the row, when there is one, takes the new question and answer and becomes the most
      recently written. */
  function Updated(rows: seq<Knowledge>, k: Knowledge): seq<Knowledge>
  {
    if HasId(rows, k.id) then Without(rows, k.id) + [k] else rows
  }

  class KnowledgeService {
    /** The rows, least recently written first. */
    var rows: seq<Knowledge>
    /** The next auto-increment id. */
    var nextId: int

    ghost predicate Valid()
      reads this
    {
      UniqueIds(rows) && forall k :: k in rows ==> k.id < nextId
    }

    constructor ()
      ensures rows == [] && nextId == 1 && Valid()
    {
      rows := [];
      nextId := 1;
    }

    /** createKnowledge: the insert fills in the generated id on the object passed in, which
        is returned. */
    method CreateKnowledge(k: Knowledge) returns (r: Knowledge)
      requires Valid()
      modifies this
      ensures Valid()
      ensures r == k.(id := old(nextId)) && !HasId(old(rows), r.id)
      ensures rows == old(rows) + [r] && nextId == old(nextId) + 1
    {
      r := k.(id := nextId);
      rows := rows + [r];
      nextId := nextId + 1;
    }

    /** updateKnowledge: returns the object it was given. */
    method UpdateKnowledge(k: Knowledge) returns (r: Knowledge)
      requires Valid()
      modifies this
      ensures Valid()
      ensures r == k && rows == Updated(old(rows), k) && nextId == old(nextId)
    {
      UpdatedSpec(rows, k);
      WithoutMembers(rows, k.id);
      if HasId(rows, k.id) {
        var i :| 0 <= i < |rows| && rows[i].id == k.id;
        assert rows[i] in rows;
      }
      rows := Updated(rows, k);
      r := k;
    }

    /** deleteKnowledge. */
    method DeleteKnowledge(id: int)
      requires Valid()
      modifies this
      ensures Valid()
      ensures rows == Without(old(rows), id) && nextId == old(nextId)
    {
      DeleteSpec(rows, id);
      WithoutMembers(rows, id);
      rows := Without(rows, id);
    }
  }

  // ---------------------------------------------------------------------------------------
  // Properties
  // ---------------------------------------------------------------------------------------

  /** A stored question has a lookup: the exact match exists exactly when some row has
      the question verbatim; it is such a row, and no such row has a lower id. */
  lemma {:induction false} ExactSpec(rows: seq<Knowledge>, question: string)
    ensures Exact(rows, question).Some? <==> exists x :: x in rows && x.question == question
    ensures Exact(rows, question).Some? ==>
      Exact(rows, question).value in rows && Exact(rows, question).value.question == question
    ensures Exact(rows, question).Some? ==>
      forall x :: x in rows && x.question == question ==> Exact(rows, question).value.id <= x.id
  {
    if rows != [] {
      ExactSpec(rows[1..], question);
      assert rows == [rows[0]] + rows[1..];
    }
  }

  /** The fuzzy match exists exactly when some stored question contains the query; it is
      such a row, and no such row comes before it in the query's order. */
  lemma {:induction false} FuzzySpec(rows: seq<Knowledge>, question: string)
    ensures Fuzzy(rows, question).Some? <==> exists x :: x in rows && Contains(x.question, question)
    ensures Fuzzy(rows, question).Some? ==>
      Fuzzy(rows, question).value in rows && Contains(Fuzzy(rows, question).value.question, question)
    ensures Fuzzy(rows, question).Some? ==>
      forall x :: x in rows && Contains(x.question, question) ==> !Shorter(x, Fuzzy(rows, question).value)
  {
    if rows != [] {
      FuzzySpec(rows[1..], question);
      assert rows == [rows[0]] + rows[1..];
    }
  }

  /** A row whose question is the query verbatim also contains it, so the fuzzy query is
      never needed when the exact one matches. */
  lemma ExactIsFuzzy(rows: seq<Knowledge>, question: string)
    ensures Exact(rows, question).Some? ==> Fuzzy(rows, question).Some?
  {
    ExactSpec(rows, question);
    FuzzySpec(rows, question);
    if Exact(rows, question).Some? {
      assert Contains(Exact(rows, question).value.question, question);
    }
  }

  /** The decision chain of askQuestion: no text needs no lookup; an exact match wins;
      otherwise the fuzzy match; otherwise the fixed reply, which comes exactly when no
      stored question contains the query. */
  lemma AskQuestionSpec(rows: seq<Knowledge>, question: Option<string>)
    ensures !HasText(question) ==> AskQuestion(rows, question) == Some(ASK_PROMPT)
    ensures HasText(question) && Exact(rows, question.value).Some? ==>
      AskQuestion(rows, question) == Exact(rows, question.value).value.answer
    ensures HasText(question) && Exact(rows, question.value).None? && Fuzzy(rows, question.value).Some? ==>
      AskQuestion(rows, question) == Fuzzy(rows, question.value).value.answer
    ensures HasText(question) && (forall x :: x in rows ==> !Contains(x.question, question.value)) ==>
      AskQuestion(rows, question) == Some(NOT_FOUND)
    ensures HasText(question) && (exists x :: x in rows && Contains(x.question, question.value)) ==>
      exists x :: x in rows && Contains(x.question, question.value) && AskQuestion(rows, question) == x.answer
  {
    if HasText(question) {
      var q := question.value;
      ExactSpec(rows, q);
      FuzzySpec(rows, q);
      ExactIsFuzzy(rows, q);
      if Exact(rows, q).Some? {
        var x := Exact(rows, q).value;
        assert Contains(x.question, q);
      }
    }
  }

  /** A question stored verbatim is answered from a row holding it (the lowest-id one when
      several share it). */
  lemma StoredQuestionAnswered(rows: seq<Knowledge>, k: Knowledge)
    requires k in rows && HasText(Some(k.question))
    ensures exists x :: x in rows && x.question == k.question && x.id <= k.id
                        && AskQuestion(rows, Some(k.question)) == x.answer
  {
    ExactSpec(rows, k.question);
  }

  /** findByExactQuestion gives a row only when the query succeeds and the exact match has
      an answer; then it is that match. */
  lemma FindByExactQuestionSpec(rows: seq<Knowledge>, reachable: bool, question: string)
    ensures FindByExactQuestion(rows, reachable, question).Some? <==>
      reachable && Exact(rows, question).Some? && Exact(rows, question).value.answer.Some?
    ensures FindByExactQuestion(rows, reachable, question).Some? ==>
      var k := FindByExactQuestion(rows, reachable, question).value;
      k in rows && k.question == question && k.answer.Some?
  {
    ExactSpec(rows, question);
  }

  /** A page echoes page and size, counts the whole table whatever the page, and holds at
      most `size` consecutive rows of the newest-first listing from the offset on. */
  lemma GetPageSpec(rows: seq<Knowledge>, page: Int32, size: Int32)
    requires GetPage(rows, page, size).Ok?
    ensures GetPage(rows, page, size).value.page == page && GetPage(rows, page, size).value.size == size
    ensures GetPage(rows, page, size).value.total == |rows| && |GetPage(rows, page, size).value.data| <= size
    ensures forall k :: 0 <= k < |GetPage(rows, page, size).value.data| ==>
      0 <= Offset(page, size) + k < |rows|
      && GetPage(rows, page, size).value.data[k] == rows[|rows| - 1 - (Offset(page, size) + k)]
  {
    PageSpec(Newest(rows), page, size);
    var p := GetPage(rows, page, size).value;
    var off := Offset(page, size);
    forall k | 0 <= k < |p.data|
      ensures 0 <= off + k < |rows| && p.data[k] == rows[|rows| - 1 - (off + k)]
    {
      assert p.data[k] == Newest(rows)[off + k];
    }
  }

  /** Search keeps exactly the rows that mention the query in either column. */
  lemma {:induction false} SearchSpec(rows: seq<Knowledge>, query: string)
    ensures forall k :: k in Search(rows, query) <==> k in rows && (Contains(k.question, query) || Mentions(k.answer, query))
  {
    if rows != [] {
      var init := rows[..|rows| - 1];
      SearchSpec(init, query);
      assert rows == init + [rows[|rows| - 1]];
    }
  }

  /** A row matches a search when its question or answer contains the query. */
  predicate Matches(k: Knowledge, query: string)
  {
    Contains(k.question, query) || Mentions(k.answer, query)
  }

  /** The matching rows of a listing, in the listing's order. */
  function MatchingIn(listing: seq<Knowledge>, query: string): (r: seq<Knowledge>)
    ensures |r| <= |listing|
  {
    if listing == [] then []
    else (if Matches(listing[0], query) then [listing[0]] else []) + MatchingIn(listing[1..], query)
  }

  /** Search lists its rows in the order of the newest-first listing: it is that listing
      with the non-matching rows dropped, so the last-written matching row comes first. */
  lemma {:induction false} SearchNewestFirst(rows: seq<Knowledge>, query: string)
    ensures Search(rows, query) == MatchingIn(Newest(rows), query)
    ensures forall k :: Search(rows + [k], query) == (if Matches(k, query) then [k] else []) + Search(rows, query)
  {
    if rows != [] {
      var init := rows[..|rows| - 1];
      SearchNewestFirst(init, query);
      assert Newest(rows)[1..] == Newest(init);
    }
    forall k
      ensures Search(rows + [k], query) == (if Matches(k, query) then [k] else []) + Search(rows, query)
    {
      assert (rows + [k])[..|rows|] == rows;
    }
  }

  /** The ids of a table without repeated ids: the head's id is not in the tail. */
  lemma TailIds(rows: seq<Knowledge>)
    requires rows != [] && UniqueIds(rows)
    ensures UniqueIds(rows[1..]) && !HasId(rows[1..], rows[0].id)
  {
    forall i | 0 <= i < |rows[1..]|
      ensures rows[1..][i].id != rows[0].id
    {
      assert rows[1..][i] == rows[i + 1];
    }
  }

  lemma HasIdTail(rows: seq<Knowledge>, id: int)
    requires rows != []
    ensures HasId(rows, id) <==> rows[0].id == id || HasId(rows[1..], id)
  {
    if HasId(rows[1..], id) {
      var i :| 0 <= i < |rows[1..]| && rows[1..][i].id == id;
      assert rows[i + 1].id == id;
    }
    if HasId(rows, id) && rows[0].id != id {
      var i :| 0 <= i < |rows| && rows[i].id == id;
      assert rows[1..][i - 1].id == id;
    }
  }

  lemma {:induction false} WithoutMembers(rows: seq<Knowledge>, id: int)
    ensures forall k :: k in Without(rows, id) <==> k in rows && k.id != id
    ensures !HasId(Without(rows, id), id)
  {
    if rows != [] {
      WithoutMembers(rows[1..], id);
      assert rows == [rows[0]] + rows[1..];
    }
    var r := Without(rows, id);
    forall i | 0 <= i < |r|
      ensures r[i].id != id
    {
      assert r[i] in r;
    }
  }

  lemma {:induction false} WithoutFind(rows: seq<Knowledge>, id: int, j: int)
    requires j != id
    ensures FindById(Without(rows, id), j) == FindById(rows, j)
  {
    if rows != [] {
      var rest := rows[1..];
      var w := Without(rest, id);
      WithoutFind(rest, id, j);
      if rows[0].id == id {
        assert Without(rows, id) == [] + w == w;
      } else {
        var r := [rows[0]] + w;
        assert Without(rows, id) == r;
        assert r[0] == rows[0] && r[1..] == w;
      }
    }
  }

  lemma {:induction false} WithoutAbsent(rows: seq<Knowledge>, id: int)
    requires !HasId(rows, id)
    ensures Without(rows, id) == rows
  {
    if rows != [] {
      HasIdTail(rows, id);
      WithoutAbsent(rows[1..], id);
    }
  }

  lemma {:induction false} WithoutUnique(rows: seq<Knowledge>, id: int)
    requires UniqueIds(rows)
    ensures UniqueIds(Without(rows, id))
    ensures |Without(rows, id)| == |rows| - (if HasId(rows, id) then 1 else 0)
  {
    if rows != [] {
      var rest := rows[1..];
      TailIds(rows);
      HasIdTail(rows, id);
      WithoutUnique(rest, id);
      if rows[0].id == id {
        WithoutAbsent(rest, id);
      } else {
        var w := Without(rest, id);
        var r := [rows[0]] + w;
        assert Without(rows, id) == r;
        WithoutMembers(rest, id);
        forall i, j | 0 <= i < j < |r|
          ensures r[i].id != r[j].id
        {
          if i == 0 {
            assert r[j] == w[j - 1];
            assert w[j - 1] in rest;
            var m :| 0 <= m < |rest| && rest[m] == w[j - 1];
          } else {
            assert r[i] == w[i - 1] && r[j] == w[j - 1];
          }
        }
      }
    }
  }

  /** deleteKnowledge removes exactly its row: that id finds nothing afterwards, every other
      id finds what it found before, and the table shrinks by one row when the id existed. */
  lemma DeleteSpec(rows: seq<Knowledge>, id: int)
    requires UniqueIds(rows)
    ensures UniqueIds(Without(rows, id)) && FindById(Without(rows, id), id) == None
    ensures forall j :: j != id ==> FindById(Without(rows, id), j) == FindById(rows, j)
    ensures |Without(rows, id)| == |rows| - (if HasId(rows, id) then 1 else 0)
  {
    WithoutMembers(rows, id);
    WithoutUnique(rows, id);
    FindByIdFound(Without(rows, id), id);
    forall j | j != id
      ensures FindById(Without(rows, id), j) == FindById(rows, j)
    {
      WithoutFind(rows, id, j);
    }
  }

  lemma {:induction false} FindAppend(rows: seq<Knowledge>, k: Knowledge)
    requires !HasId(rows, k.id)
    ensures FindById(rows + [k], k.id) == Some(k)
    ensures forall j :: j != k.id ==> FindById(rows + [k], j) == FindById(rows, j)
  {
    if rows != [] {
      assert (rows + [k])[1..] == rows[1..] + [k];
      HasIdTail(rows, k.id);
      FindAppend(rows[1..], k);
    }
  }

  /** An insert with a fresh id: the new row is found under its id, every other lookup is
      as before, and the new row heads the newest-first listing. */
  lemma InsertSpec(rows: seq<Knowledge>, k: Knowledge)
    requires UniqueIds(rows) && !HasId(rows, k.id)
    ensures UniqueIds(rows + [k])
    ensures FindById(rows + [k], k.id) == Some(k)
    ensures forall j :: j != k.id ==> FindById(rows + [k], j) == FindById(rows, j)
    ensures Newest(rows + [k])[0] == k
  {
    FindAppend(rows, k);
    var r := rows + [k];
    forall i, j | 0 <= i < j < |r|
      ensures r[i].id != r[j].id
    {
      if j == |rows| {
        assert r[i] == rows[i];
      }
    }
  }

  /** updateKnowledge touches only its own row: afterwards that id finds the new question
      and answer (when the row existed), every other id finds what it found before, the row
      count is unchanged, and the updated row heads the newest-first listing. */
  lemma UpdatedSpec(rows: seq<Knowledge>, k: Knowledge)
    requires UniqueIds(rows)
    ensures UniqueIds(Updated(rows, k)) && |Updated(rows, k)| == |rows|
    ensures FindById(Updated(rows, k), k.id) == (if HasId(rows, k.id) then Some(k) else None)
    ensures forall j :: j != k.id ==> FindById(Updated(rows, k), j) == FindById(rows, j)
    ensures HasId(rows, k.id) ==> Newest(Updated(rows, k))[0] == k
  {
    FindByIdFound(rows, k.id);
    if HasId(rows, k.id) {
      DeleteSpec(rows, k.id);
      WithoutMembers(rows, k.id);
      InsertSpec(Without(rows, k.id), k);
    }
  }
}
