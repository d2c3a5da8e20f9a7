// The dashboard's editor and the list updates that follow each request:
// selecting a note, starting a new one, delete, save (update or create),
// AI summary and question answering. Each request is split in two: what the
// handler decides before `fetch` (the guards), and how it folds the response
// into the screen state afterwards. The response itself is an input.

module NoteEditor {
  import opened Basics
  import opened JsText

  /** The editor's `useState` fields. */
  datatype Editor = Editor(selected: Option<int>, title: string, text: string, summary: string,
                           isNewNote: bool, showQA: bool, question: string, answer: string)

  datatype Screen = Screen(notes: seq<Note>, editor: Editor)

  /** A new screen state and the toast the handler pushes, if any. */
  datatype Outcome = Outcome(screen: Screen, notice: Option<Notice>)

  /** `selected` used as a condition: `null` and the id `0` are falsy. */
  predicate Truthy(sel: Option<int>) {
    sel.Some? && sel.value != 0
  }

  /** The main area shows the welcome screen instead of the editor. */
  predicate ShowsWelcome(e: Editor) {
    !Truthy(e.selected) && !e.isNewNote
  }

  /** The editor is working on an existing note (`selected && !isNewNote`). */
  predicate EditsExisting(e: Editor) {
    Truthy(e.selected) && !e.isNewNote
  }

  // ---------------------------------------------------------------------
  // List updates

  /** `prev.filter(n => n.id !== id)` */
  function RemoveNote(notes: seq<Note>, id: int): (r: seq<Note>)
    ensures forall n :: n in r <==> n in notes && n.id != id
    ensures forall n :: multiset(r)[n] == if n.id != id then multiset(notes)[n] else 0
    ensures IsSubsequence(r, notes)
    ensures (forall n :: n in notes ==> n.id != id) ==> r == notes
  {
    if notes == [] then []
    else
      var rest := RemoveNote(notes[1..], id);
      assert notes == [notes[0]] + notes[1..];
      if notes[0].id == id then rest else [notes[0]] + rest
  }

  /** `prev.map(n => n.id === data.id ? data : n)` */
  function ReplaceNote(notes: seq<Note>, data: Note): (r: seq<Note>)
    ensures |r| == |notes|
    ensures forall i :: 0 <= i < |notes| && notes[i].id == data.id ==> r[i] == data
    ensures forall i :: 0 <= i < |notes| && notes[i].id != data.id ==> r[i] == notes[i]
  {
    seq(|notes|, i requires 0 <= i < |notes| => if notes[i].id == data.id then data else notes[i])
  }

  /** `prev.map(n => n.id === id ? { ...n, summary } : n)` */
  function PatchSummary(notes: seq<Note>, id: int, summary: string): (r: seq<Note>)
    ensures |r| == |notes|
    ensures forall i :: 0 <= i < |notes| && notes[i].id == id ==> r[i] == notes[i].(summary := summary)
    ensures forall i :: 0 <= i < |notes| && notes[i].id != id ==> r[i] == notes[i]
  {
    seq(|notes|, i requires 0 <= i < |notes| => if notes[i].id == id then notes[i].(summary := summary) else notes[i])
  }

  // ---------------------------------------------------------------------
  // Selecting and starting a note

  /** `handleSelect(note)` */
  function Select(e: Editor, n: Note): Editor {
    Editor(Some(n.id), n.title, n.text, n.summary, false, false, "", "")
  }

  /** `handleNew()` */
  function New(e: Editor): Editor {
    Editor(None, "", "", "", true, false, "", "")
  }

  /** Selecting loads the note into the editor whatever was there before,
      and a later save updates that note in place. */
  lemma SelectLoadsNote(e1: Editor, e2: Editor, n: Note)
    requires n.id != 0
    ensures Select(e1, n) == Select(e2, n)
    ensures !ShowsWelcome(Select(e1, n)) && EditsExisting(Select(e1, n))
    ensures SaveTarget(Select(e1, n)) == PutNote(n.id, n.title, n.text, n.summary)
    ensures SummarizeTarget(Select(e1, n)) == (if AllSpace(n.text) then SummarizeBlocked(NoContent) else SummarizeAndStore(n.id, n.text))
  {
    TrimEmptyIff(n.text);
  }

  /** "New note" clears the editor, leaves the welcome screen, and a later
      save creates a note rather than updating one. */
  lemma NewStartsBlank(e: Editor)
    ensures New(e) == New(New(e))
    ensures !ShowsWelcome(New(e)) && !EditsExisting(New(e))
    ensures SaveTarget(New(e)) == PostNote("", "")
    ensures SummarizeTarget(New(e)) == SummarizeBlocked(NoContent)
  {
    TrimEmptyIff("");
  }

  // ---------------------------------------------------------------------
  // Delete

  /** `if (!selected) return; if (!confirm(...)) return;` then the request. */
  function DeleteTarget(e: Editor, confirmed: bool): (r: Option<int>)
    ensures r.Some? <==> Truthy(e.selected) && confirmed
    ensures r.Some? ==> r == e.selected
  {
    if !Truthy(e.selected) || !confirmed then None else e.selected
  }

  const Deleted := Notice("笔记删除成功", Success)
  const DeleteFailed := "删除失败"

  /** The delete response folded into the screen; a rejected request is
      only logged. */
  function AfterDelete(s: Screen, id: int, reply: Fetch<DeleteReply>): Outcome {
    match reply
    case Threw => Outcome(s, None)
    case Got(r) =>
      if r.ok then
        Outcome(Screen(RemoveNote(s.notes, id),
                       s.editor.(selected := None, text := "", summary := "")),
                Some(Deleted))
      else Outcome(s, Some(Notice(Or(r.error, DeleteFailed), Danger)))
  }

  /** A successful delete drops every note with the id, keeps the rest in
      order, and resets the editor to the unselected state (the title
      field is left as it was). A failed one changes nothing. */
  lemma DeleteOutcome(s: Screen, id: int, reply: Fetch<DeleteReply>)
    ensures var o := AfterDelete(s, id, reply);
            if reply.Got? && reply.data.ok then
              && (forall n :: n in o.screen.notes <==> n in s.notes && n.id != id)
              && IsSubsequence(o.screen.notes, s.notes)
              && o.screen.editor.selected == None && ShowsWelcome(o.screen.editor) == !s.editor.isNewNote
              && o.screen.editor.text == "" && o.screen.editor.summary == ""
              && o.screen.editor.title == s.editor.title
              && o.notice == Some(Deleted)
            else
              && o.screen == s
              && (reply.Threw? ==> o.notice == None)
              && (reply.Got? ==> o.notice.Some? && o.notice.value.variant == Danger && o.notice.value.message != "")
  {
  }

  // ---------------------------------------------------------------------
  // Save

  datatype SaveRequest =
    | PutNote(id: int, title: string, text: string, summary: string)
    | PostNote(title: string, text: string)

  /** The save button: update the selected note, or create one. */
  function SaveTarget(e: Editor): (r: SaveRequest)
    ensures r.PutNote? <==> EditsExisting(e)
    ensures r.PutNote? ==> Some(r.id) == e.selected && r.title == e.title && r.text == e.text && r.summary == e.summary
    ensures r.PostNote? ==> r.title == e.title && r.text == e.text
  {
    if EditsExisting(e) then PutNote(e.selected.value, e.title, e.text, e.summary) else PostNote(e.title, e.text)
  }

  const Saved := Notice("保存成功", Success)
  const SaveFailed := Notice("保存失败", Danger)

  function AfterSave(s: Screen, req: SaveRequest, reply: Fetch<Note>): Outcome {
    match reply
    case Threw => Outcome(s, Some(SaveFailed))
    case Got(data) =>
      match req
      case PutNote(_, _, _, _) => Outcome(s.(notes := ReplaceNote(s.notes, data)), Some(Saved))
      case PostNote(_, _) =>
        Outcome(Screen([data] + s.notes, s.editor.(selected := Some(data.id), isNewNote := false)), Some(Saved))
  }

  /** Creating prepends the returned note and selects it; updating swaps in
      the returned note wherever its id matches and touches nothing else. */
  lemma SaveOutcome(s: Screen, req: SaveRequest, data: Note)
    ensures var o := AfterSave(s, req, Got(data));
            && o.notice == Some(Saved)
            && (req.PostNote? ==>
                  o.screen.notes[0] == data && o.screen.notes[1..] == s.notes
                  && o.screen.editor.selected == Some(data.id) && !o.screen.editor.isNewNote
                  && (data.id != 0 ==> SaveTarget(o.screen.editor).PutNote? && SaveTarget(o.screen.editor).id == data.id))
            && (req.PutNote? ==>
                  |o.screen.notes| == |s.notes| && o.screen.editor == s.editor
                  && (forall i :: 0 <= i < |s.notes| ==>
                        o.screen.notes[i] == if s.notes[i].id == data.id then data else s.notes[i]))
  {
  }

  // ---------------------------------------------------------------------
  // AI summary

  const NoContent := Notice("请输入笔记内容", Warning)

  datatype SummarizeRequest =
    | SummarizeBlocked(notice: Notice)
    | SummarizeAndStore(noteId: int, text: string)
    | SummarizePreview(text: string)

  /** `handleAISummarize` up to its `fetch`: blank text is refused; an
      existing note is summarized and stored, a new one only previewed. */
  function SummarizeTarget(e: Editor): SummarizeRequest {
    if e.text == "" || |Trim(e.text)| == 0 then SummarizeBlocked(NoContent)
    else if EditsExisting(e) then SummarizeAndStore(e.selected.value, e.text)
    else SummarizePreview(e.text)
  }

  /** A request goes out exactly when the text is not blank. */
  lemma SummarizeGuard(e: Editor)
    ensures SummarizeTarget(e).SummarizeBlocked? <==> AllSpace(e.text)
    ensures SummarizeTarget(e).SummarizeBlocked? ==> SummarizeTarget(e).notice == NoContent
    ensures SummarizeTarget(e).SummarizeAndStore? ==> EditsExisting(e) && Some(SummarizeTarget(e).noteId) == e.selected
  {
    TrimEmptyIff(e.text);
  }

  /** The summary response (`data.summary`, "" when absent). */
  function AfterSummarize(s: Screen, req: SummarizeRequest, reply: Fetch<string>): Outcome
    requires !req.SummarizeBlocked?
  {
    match reply
    case Threw => Outcome(s, Some(Notice("AI摘要生成失败", Danger)))
    case Got(summary) =>
      if summary == "" then Outcome(s, Some(Notice("AI摘要生成失败，请重试", Danger)))
      else match req
        case SummarizeAndStore(id, _) =>
          Outcome(Screen(PatchSummary(s.notes, id, summary), s.editor.(summary := summary)),
                  Some(Notice("AI摘要生成成功", Success)))
        case SummarizePreview(_) =>
          Outcome(s.(editor := s.editor.(summary := summary)), Some(Notice("AI摘要生成成功，请保存笔记", Success)))
  }

  /** A stored summary reaches the editor and the matching list entry only;
      a preview reaches the editor only; a failure changes nothing. */
  lemma SummarizeOutcome(s: Screen, req: SummarizeRequest, reply: Fetch<string>)
    requires !req.SummarizeBlocked?
    ensures var o := AfterSummarize(s, req, reply);
            && o.notice.Some?
            && (if reply.Got? && reply.data != "" then
                  && o.notice.value.variant == Success
                  && o.screen.editor == s.editor.(summary := reply.data)
                  && |o.screen.notes| == |s.notes|
                  && (forall i :: 0 <= i < |s.notes| ==>
                        o.screen.notes[i] == if req.SummarizeAndStore? && s.notes[i].id == req.noteId
                                             then s.notes[i].(summary := reply.data) else s.notes[i])
                else o.screen == s && o.notice.value.variant == Danger)
  {
  }

  // ---------------------------------------------------------------------
  // Questions

  datatype AskRequest = AskBlocked(notice: Notice) | Ask(question: string, context: string)

  /** `handleAskQuestion` up to its `fetch`. */
  function AskTarget(e: Editor): AskRequest {
    if Trim(e.question) == "" then AskBlocked(Notice("请输入问题", Warning))
    else if Trim(e.text) == "" then AskBlocked(NoContent)
    else Ask(e.question, e.text)
  }

  /** The question is checked before the text, and a request goes out
      exactly when neither is blank, with the note text as context. */
  lemma AskGuard(e: Editor)
    ensures AskTarget(e).Ask? <==> !AllSpace(e.question) && !AllSpace(e.text)
    ensures AllSpace(e.question) ==> AskTarget(e) == AskBlocked(Notice("请输入问题", Warning))
    ensures !AllSpace(e.question) && AllSpace(e.text) ==> AskTarget(e) == AskBlocked(NoContent)
    ensures AskTarget(e).Ask? ==> AskTarget(e) == Ask(e.question, e.text)
  {
    TrimEmptyIff(e.question);
    TrimEmptyIff(e.text);
  }

  /** The answer response (`data.answer`, "" when absent). */
  function AfterAnswer(e: Editor, reply: Fetch<string>): (r: (Editor, Notice))
    ensures reply.Got? && reply.data != "" ==> r.0 == e.(answer := reply.data) && r.1.variant == Success
    ensures !(reply.Got? && reply.data != "") ==> r.0 == e && r.1.variant == Danger
  {
    match reply
    case Threw => (e, Notice("AI回答失败", Danger))
    case Got(answer) =>
      if answer == "" then (e, Notice("AI回答失败，请重试", Danger))
      else (e.(answer := answer), Notice("AI已回答您的问题", Success))
  }
}
