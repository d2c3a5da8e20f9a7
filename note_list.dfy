// The dashboard's note list: the summary filter and text search applied to
// the loaded notes, the slice of the result shown on the current page, and
// the four page buttons. All of it is recomputed on every render from
// `notes`, `filter`, `query`, `page` and `pageSize`.

module NoteList {
  import opened Basics
  import opened JsText

  /** The `filter` select: `all`, `withSummary` or `withoutSummary`. */
  datatype SummaryFilter = All | WithSummary | WithoutSummary

  /** `n.summary && n.summary.trim() && n.summary.trim() !== ''` */
  predicate HasSummary(n: Note) {
    Trim(n.summary) != ""
  }

  /** The search test for an already trimmed, lower-cased query `q`. */
  predicate Matches(n: Note, q: string) {
    q == "" || Contains(Lower(n.text), q) || Contains(Lower(n.summary), q) || Contains(Lower(n.title), q)
  }

  /** The predicate passed to `notes.filter`. */
  predicate Keep(n: Note, f: SummaryFilter, q: string) {
    && !(f == WithSummary && !HasSummary(n))
    && !(f == WithoutSummary && HasSummary(n))
    && Matches(n, q)
  }

  function FilterNotes(notes: seq<Note>, f: SummaryFilter, q: string): (r: seq<Note>)
    ensures IsSubsequence(r, notes)
    ensures forall n :: n in r <==> n in notes && Keep(n, f, q)
    ensures forall n :: multiset(r)[n] == if Keep(n, f, q) then multiset(notes)[n] else 0
    ensures |r| <= |notes|
  {
    if notes == [] then []
    else
      var rest := FilterNotes(notes[1..], f, q);
      assert notes == [notes[0]] + notes[1..];
      if Keep(notes[0], f, q) then [notes[0]] + rest else rest
  }

  /** `filtered`: the query is trimmed and lower-cased once, then each note
      is checked against it. */
  function Filtered(notes: seq<Note>, f: SummaryFilter, query: string): seq<Note> {
    FilterNotes(notes, f, Lower(Trim(query)))
  }

  /** A blank query adds no restriction: with the `all` filter every note is
      listed, in its original order. */
  lemma BlankQueryKeepsAll(notes: seq<Note>, query: string)
    requires AllSpace(query)
    ensures Filtered(notes, All, query) == notes
  {
    TrimEmptyIff(query);
    KeepAll(notes);
  }

  lemma {:induction false} KeepAll(notes: seq<Note>)
    ensures FilterNotes(notes, All, "") == notes
  {
    if notes != [] {
      KeepAll(notes[1..]);
      assert notes == [notes[0]] + notes[1..];
    }
  }

  /** `withSummary` and `withoutSummary` split what `all` shows: every
      listed note falls under exactly one of them. */
  lemma {:induction false} SummaryFiltersPartition(notes: seq<Note>, q: string)
    ensures |FilterNotes(notes, WithSummary, q)| + |FilterNotes(notes, WithoutSummary, q)|
         == |FilterNotes(notes, All, q)|
    ensures forall n :: n in FilterNotes(notes, WithSummary, q) ==> HasSummary(n)
    ensures forall n :: n in FilterNotes(notes, WithoutSummary, q) ==> !HasSummary(n)
  {
    if notes != [] {
      SummaryFiltersPartition(notes[1..], q);
    }
  }

  // ---------------------------------------------------------------------
  // Pagination

  /** `Math.max(1, Math.ceil(total / pageSize))` */
  function TotalPages(total: nat, pageSize: nat): (r: nat)
    requires pageSize > 0
    ensures r >= 1
  {
    if total == 0 then 1 else (total + pageSize - 1) / pageSize
  }

  /** `TotalPages` is the least page count that holds every item, and one
      page at least. */
  lemma TotalPagesBounds(total: nat, pageSize: nat)
    requires pageSize > 0
    ensures total <= TotalPages(total, pageSize) * pageSize
    ensures total > 0 ==> (TotalPages(total, pageSize) - 1) * pageSize < total
    ensures total == 0 ==> TotalPages(total, pageSize) == 1
  {
    if total > 0 {
      var c := (total + pageSize - 1) / pageSize;
      var m := (total + pageSize - 1) % pageSize;
      assert c * pageSize + m == total + pageSize - 1;
      assert (c - 1) * pageSize == c * pageSize - pageSize;
    }
  }

  /** `Math.min(Math.max(1, page), totalPages)` */
  function CurrentPage(page: int, totalPages: nat): (r: int)
    requires totalPages >= 1
    ensures 1 <= r <= totalPages
    ensures 1 <= page <= totalPages ==> r == page
    ensures page < 1 ==> r == 1
    ensures page > totalPages ==> r == totalPages
  {
    var atLeastOne := if page < 1 then 1 else page;
    if atLeastOne > totalPages then totalPages else atLeastOne
  }

  lemma MulMono(a: int, b: int, c: nat)
    requires a <= b
    ensures a * c <= b * c
  {
    assert b * c - a * c == (b - a) * c;
  }

  /** Where page `current` starts, for a page number inside the range. */
  lemma PageStart(total: nat, pageSize: nat, current: int, start: int)
    requires pageSize > 0 && 1 <= current <= TotalPages(total, pageSize)
    requires start == (current - 1) * pageSize
    ensures 0 <= start <= total
    ensures total > 0 ==> start < total
    ensures current < TotalPages(total, pageSize) ==> start + pageSize <= total
  {
    var tp := TotalPages(total, pageSize);
    TotalPagesBounds(total, pageSize);
    MulMono(current - 1, tp - 1, pageSize);
    MulMono(0, current - 1, pageSize);
    if current < tp {
      MulMono(current, tp - 1, pageSize);
      assert start + pageSize == current * pageSize;
    }
  }

  /** What the block renders, with `start`, the index of its first item. */
  datatype ListView = ListView(total: nat, totalPages: nat, current: int, start: nat, items: seq<Note>)

  /** The paginated block for an already filtered list. */
  function Paginate(filtered: seq<Note>, page: int, pageSize: nat): (v: ListView)
    requires pageSize > 0
    ensures v.total == |filtered|
    ensures v.totalPages == TotalPages(|filtered|, pageSize)
    ensures 1 <= v.current <= v.totalPages
    ensures 1 <= page <= v.totalPages ==> v.current == page
    ensures v.start == (v.current - 1) * pageSize
    ensures |v.items| <= pageSize
    ensures v.start + |v.items| <= v.total
    ensures v.items == filtered[v.start .. v.start + |v.items|]
    ensures v.current < v.totalPages ==> |v.items| == pageSize
    ensures v.total > 0 ==> v.items != []
  {
    var total := |filtered|;
    var totalPages := TotalPages(total, pageSize);
    var current := CurrentPage(page, totalPages);
    var start := (current - 1) * pageSize;
    PageStart(total, pageSize, current, start);
    // `slice` cuts the end back to the length; the start is in range.
    var end := if start + pageSize <= total then start + pageSize else total;
    ListView(total, totalPages, current, start, filtered[start..end])
  }

  /** The filtered-and-paginated block of the sidebar. */
  function View(notes: seq<Note>, f: SummaryFilter, query: string, page: int, pageSize: nat): ListView
    requires pageSize > 0
  {
    Paginate(Filtered(notes, f, query), page, pageSize)
  }

  /** Paging reaches every match: the `i`-th filtered note is item
      `i % pageSize` of page `i / pageSize + 1`. */
  lemma ItemOnItsPage(filtered: seq<Note>, pageSize: nat, i: nat)
    requires pageSize > 0 && i < |filtered|
    ensures var v := Paginate(filtered, i / pageSize + 1, pageSize);
            v.current == i / pageSize + 1 && i % pageSize < |v.items|
            && v.items[i % pageSize] == filtered[i]
  {
    var total := |filtered|;
    var tp := TotalPages(total, pageSize);
    var pg := i / pageSize + 1;
    var q, r := i / pageSize, i % pageSize;
    assert i == q * pageSize + r;
    assert pg <= tp by {
      if pg > tp {
        MulMono(tp, q, pageSize);
      }
    }
    var v := Paginate(filtered, pg, pageSize);
    assert v.current == pg;
    if pg < tp {
      assert r < |v.items|;
    } else {
      assert q * pageSize + |v.items| == total;
    }
  }

  /** Seven matches at five per page make two pages: the first shows the
      first five, the second the remaining two. */
  lemma SevenMatchesFivePerPage(notes: seq<Note>, f: SummaryFilter, query: string)
    requires |Filtered(notes, f, query)| == 7
    ensures View(notes, f, query, 1, 5).totalPages == 2
    ensures View(notes, f, query, 1, 5).total == 7
    ensures View(notes, f, query, 1, 5).items == Filtered(notes, f, query)[..5]
    ensures View(notes, f, query, 2, 5).items == Filtered(notes, f, query)[5..]
  {
    assert TotalPages(7, 5) == 2;
  }

  // ---------------------------------------------------------------------
  // Page buttons

  datatype PageButton = FirstPage | PrevPage | NextPage | LastPage

  /** The page each button sets: `1`, `Math.max(1, current-1)`,
      `Math.min(totalPages, current+1)`, `totalPages`. */
  function Press(b: PageButton, current: int, totalPages: nat): (r: int)
    requires 1 <= current <= totalPages
    ensures 1 <= r <= totalPages
    ensures CurrentPage(r, totalPages) == r
    ensures b == PrevPage ==> r == current - 1 || (current == 1 && r == 1)
    ensures b == NextPage ==> r == current + 1 || (current == totalPages && r == totalPages)
  {
    match b
    case FirstPage => 1
    case PrevPage => if current - 1 > 1 then current - 1 else 1
    case NextPage => if current + 1 < totalPages then current + 1 else totalPages
    case LastPage => totalPages
  }
}
