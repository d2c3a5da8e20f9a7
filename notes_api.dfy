// The backend's notes table and the four endpoints over it: list, create,
// delete and partial update, plus the step of the summarize endpoint that
// stores a generated summary. The database is an in-memory map from primary
// key to row, with an autoincrement counter.

module NotesApi {
  import opened Basics

  /** Every row is stored under its own id. */
  ghost predicate KeyedById(rows: map<int, Note>) {
    forall k :: k in rows ==> rows[k].id == k
  }

  predicate IsMax(s: set<int>, m: int) {
    m in s && forall x :: x in s ==> x <= m
  }

  lemma HasElement(s: set<int>)
    requires s != {}
    ensures exists x :: x in s
  {
    if forall x :: x !in s {
      assert false;
    }
  }

  lemma {:induction false} MaxExists(s: set<int>)
    requires s != {}
    ensures exists m :: IsMax(s, m)
    decreases |s|
  {
    HasElement(s);
    var x :| x in s;
    var rest := s - {x};
    assert forall y :: y in s ==> y == x || y in rest;
    if rest != {} {
      MaxExists(rest);
      var m :| IsMax(rest, m);
      if x > m {
        assert IsMax(s, x);
      } else {
        assert IsMax(s, m);
      }
    } else {
      assert IsMax(s, x);
    }
  }

  /** The largest element of a non-empty set of ids. */
  function MaxKey(s: set<int>): (m: int)
    requires s != {}
    ensures IsMax(s, m)
  {
    MaxExists(s);
    var m :| IsMax(s, m);
    m
  }

  /** `ks` lists the ids of `s`, each once, from the largest down. */
  predicate DescendingOf(ks: seq<int>, s: set<int>) {
    && |ks| == |s|
    && (forall i :: 0 <= i < |ks| ==> ks[i] in s)
    && (forall x :: x in s ==> x in ks)
    && (forall i, j :: 0 <= i < j < |ks| ==> ks[i] > ks[j])
  }

  function Descending(s: set<int>): (r: seq<int>)
    ensures DescendingOf(r, s)
    decreases |s|
  {
    if s == {} then []
    else
      var k := MaxKey(s);
      var tail := Descending(s - {k});
      assert forall x :: x in s ==> x == k || x in s - {k};
      [k] + tail
  }

  /** Rows looked up along a descending key list come out in decreasing
      id order, each row once. */
  lemma ListingFacts(rows: map<int, Note>, ks: seq<int>, r: seq<Note>)
    requires KeyedById(rows) && DescendingOf(ks, rows.Keys)
    requires |r| == |ks| && forall i :: 0 <= i < |ks| ==> r[i] == rows[ks[i]]
    ensures |r| == |rows|
    ensures forall k :: k in rows ==> rows[k] in r
    ensures forall i :: 0 <= i < |r| ==> r[i].id in rows && rows[r[i].id] == r[i]
    ensures forall i, j :: 0 <= i < j < |r| ==> r[i].id > r[j].id
  {
    assert forall i :: 0 <= i < |r| ==> r[i].id == ks[i];
    assert forall k :: k in rows ==> exists i :: 0 <= i < |ks| && ks[i] == k && r[i] == rows[k];
  }

  /** `GET /notes`: every row, ordered by `Note.id.desc()`. */
  function ListNotes(rows: map<int, Note>): (r: seq<Note>)
    requires KeyedById(rows)
    ensures |r| == |rows|
    ensures forall k :: k in rows ==> rows[k] in r
    ensures forall i :: 0 <= i < |r| ==> r[i].id in rows && rows[r[i].id] == r[i]
    ensures forall i, j :: 0 <= i < j < |r| ==> r[i].id > r[j].id
  {
    var ks := Descending(rows.Keys);
    var r := seq(|ks|, i requires 0 <= i < |ks| => rows[ks[i]]);
    ListingFacts(rows, ks, r);
    r
  }

  /** The body of `PUT /notes/{id}`: each field may be left out. */
  datatype NoteUpdate = NoteUpdate(title: Option<string>, text: Option<string>, summary: Option<string>)

  /** A note with the fields an update carries overwritten. */
  function ApplyUpdate(n: Note, u: NoteUpdate): (r: Note)
    ensures r.id == n.id
    ensures u.title.None? ==> r.title == n.title
    ensures u.text.None? ==> r.text == n.text
    ensures u.summary.None? ==> r.summary == n.summary
  {
    Note(n.id, u.title.GetOr(n.title), u.text.GetOr(n.text), u.summary.GetOr(n.summary))
  }

  /** An empty update changes nothing, and applying an update twice is
      the same as applying it once. */
  lemma ApplyUpdateLaws(n: Note, u: NoteUpdate)
    ensures ApplyUpdate(n, NoteUpdate(None, None, None)) == n
    ensures ApplyUpdate(ApplyUpdate(n, u), u) == ApplyUpdate(n, u)
    ensures u.title.Some? ==> ApplyUpdate(n, u).title == u.title.value
    ensures u.text.Some? ==> ApplyUpdate(n, u).text == u.text.value
    ensures u.summary.Some? ==> ApplyUpdate(n, u).summary == u.summary.value
  {
  }

  /** What `update_note` answers for an unknown id. */
  const Missing := Note(0, "", "", "")
  const NotFound := "笔记未找到"

  class NotesTable {
    var rows: map<int, Note>
    var nextId: int

    /** Keys come from the counter, which starts at 1 and only grows. */
    ghost predicate Valid()
      reads this
    {
      && nextId >= 1
      && KeyedById(rows)
      && (forall k :: k in rows ==> 1 <= k < nextId)
    }

    constructor()
      ensures Valid() && rows == map[] && nextId == 1
    {
      rows := map[];
      nextId := 1;
    }

    /** `POST /notes`: one new row under a fresh id, with an empty
        summary. `request.title or ""` leaves a string as it is; an
        omitted field is already "". */
    method Create(title: string, text: string) returns (n: Note)
      requires Valid()
      modifies this
      ensures Valid()
      ensures n == Note(old(nextId), title, text, "")
      ensures n.id !in old(rows) && rows == old(rows)[n.id := n]
      ensures forall k :: k in old(rows) ==> k < n.id
      ensures nextId == old(nextId) + 1
    {
      n := Note(nextId, title, text, "");
      rows := rows[nextId := n];
      nextId := nextId + 1;
    }

    /** `DELETE /notes/{id}` */
    method Delete(id: int) returns (r: DeleteReply)
      requires Valid()
      modifies this
      ensures Valid()
      ensures id !in old(rows) ==> r == DeleteReply(false, NotFound) && rows == old(rows)
      ensures id in old(rows) ==> r == DeleteReply(true, "") && rows == old(rows) - {id}
      ensures nextId == old(nextId)
    {
      if id !in rows {
        return DeleteReply(false, NotFound);
      }
      rows := rows - {id};
      r := DeleteReply(true, "");
    }

    /** `PUT /notes/{id}`: the fields present in the body are written one
        by one, then the row is stored and returned. */
    method Update(id: int, u: NoteUpdate) returns (n: Note)
      requires Valid()
      modifies this
      ensures Valid()
      ensures id !in old(rows) ==> n == Missing && rows == old(rows)
      ensures id in old(rows) ==> n == ApplyUpdate(old(rows)[id], u) && rows == old(rows)[id := n]
      ensures nextId == old(nextId)
    {
      if id !in rows {
        return Missing;
      }
      var note := rows[id];
      if u.title.Some? {
        note := note.(title := u.title.value);
      }
      if u.text.Some? {
        note := note.(text := u.text.value);
      }
      if u.summary.Some? {
        note := note.(summary := u.summary.value);
      }
      rows := rows[id := note];
      n := note;
    }

    /** The last step of `POST /api/summarize`: the generated summary is
        written to the note if it still exists; otherwise the endpoint
        fails (`stored` is false) and nothing changes. */
    method StoreSummary(noteId: int, summary: string) returns (stored: bool)
      requires Valid()
      modifies this
      ensures Valid()
      ensures stored <==> noteId in old(rows)
      ensures stored ==> rows == old(rows)[noteId := old(rows)[noteId].(summary := summary)]
      ensures !stored ==> rows == old(rows)
      ensures nextId == old(nextId)
    {
      stored := noteId in rows;
      if stored {
        rows := rows[noteId := rows[noteId].(summary := summary)];
      }
    }
  }
}
