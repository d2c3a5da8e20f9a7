# ai-notes in Dafny

A model of the logic behind ai-notes, a note-taking web application. It has a
React front end (a dashboard and a sign-in page) and a FastAPI back end that
stores notes and accounts. The model covers four pieces:

- **The toast bus** (`toast_bus.dfy`). It is an insertion-ordered set of
  handlers with `subscribe`, the unsubscribe closure and `pushToast`.
  `pushToast` calls every handler with `{message, variant, timeout}` and
  swallows what a handler throws. Module `ToastBus` has two parts:
  - pure definitions (`Add`, `Remove`, `Broadcast`, `Failures`, and `Step`/`Run`
    over sequences of operations) with the lemmas about them;
  - a class `Bus` whose methods update the handler set and the delivery logs
    in place and are proved equal to `Step`.
- **The dashboard's toasts** (`toast_lifecycle.dfy`). Each toast goes
  visible → hiding → removed. The model keeps two maps:
  - `slots` is `timersRef.current`, from toast id to the timer handle stored
    for it;
  - `pending` is the timers the browser still holds.

  The invariant `Inv` says every live timer is the one its toast's slot holds,
  so there is at most one pending timer per toast. `Inv` is proved preserved
  by every event. Class `ToastPanel` mirrors the pure state machine
  (`StartHide`, `Push`, `HoverEnter`, `HoverLeave`, `Close`, `Elapse`).
- **The dashboard's note list and editor** (`note_list.dfy`,
  `note_editor.dfy`):
  - the summary filter and text search, pagination and the page buttons;
  - the editor state changes (`handleSelect`, `handleNew`);
  - the input guards of the AI summary and question handlers;
  - how each response (delete, save, summary, answer) is folded into the list,
    the editor and a toast.
- **The sign-in page and the back end**:
  - `auth_form.dfy`: the register form's checks, and login/register replies
    turned into toasts;
  - `notes_api.dfy`: the notes table, a map from id to row with an
    autoincrement counter, and the list, create, delete, partial update and
    store-summary steps;
  - `auth_api.dfy`: the users table, with registration and login.

`list_sync.dfy` ties the two halves together. The dashboard never re-fetches
the list after a change; it patches its own copy with the server's reply. For
delete, create, update and summary, the patched copy is proved to equal what
`GET /notes` would then return. The price of one gap in that agreement is
stated exactly:
- when the AI summary comes back blank, the server stores `""`;
- but the client treats `""` as a failure and keeps the old summary;
- `EmptySummaryLeavesCopyStale` shows the two lists then differ.

Conventions:
- A JavaScript value that may be missing and is then replaced with `x || d`
  is a string in which `""` stands for both missing and empty.
- `selected` is `Option<int>`; it counts as true when it holds a non-zero id.
- Network replies and exceptions are inputs: `Fetch<T>` is the decoded body,
  or `Threw`.
- `confirm()` and "is the database reachable" are booleans.
- Which bus handlers throw is a function parameter.
- The AI service's reply is an optional string parameter: the stripped
  reply text, or None when the service fails.

Two details of the code that the model keeps:
- the register form's password-mismatch toast uses the `danger` style
  (Auth.jsx line 110), while the two length checks use `warning` (lines 114
  and 118);
- `startHide` on a toast that is already hiding clears its pending 320 ms
  removal and arms a new one (Dashboard.jsx lines 31-39). Two calls still
  leave one removal, the second one armed (`StartHideTwiceOneRemoval`).

The sign-in page's toasts reach no one. Auth.jsx passes each notice to the
bus's `pushToast`, but the bus's only subscriber is the dashboard
(Dashboard.jsx lines 51-56), which unsubscribes when it unmounts, and the
router mounts one page at a time (App.jsx lines 36-40). So every notice the
sign-in page publishes goes to an empty handler set and changes nothing
(`SignInToastsReachNobody`). The login success notice goes out 700 ms before
the dashboard mounts, and the bus does not replay it
(`ReceivesOnlyWhileSubscribed`).

## Model

| member | source | states |
|---|---|---|
| ToastBus.Add | ai-notes-frontend/src/utils/toastBus.js:4 | adding keeps the set duplicate-free; a new handler goes last, a present one stays where it is |
| ToastBus.Remove | ai-notes-frontend/src/utils/toastBus.js:5 | removing `h` drops `h` and keeps exactly the other handlers; an absent `h` changes nothing |
| ToastBus.RemoveCutsOne | ai-notes-frontend/src/utils/toastBus.js:5 | unsubscribing a registered handler cuts its single entry out and leaves the others in their order |
| ToastBus.BroadcastInOrder | ai-notes-frontend/src/utils/toastBus.js:8-10 | one publish calls every registered handler once, in insertion order, with the same event |
| ToastBus.BroadcastOncePerHandler | ai-notes-frontend/src/utils/toastBus.js:1-10 | a registered handler receives a publish exactly once; an unregistered one receives nothing |
| ToastBus.SubscribeTwiceDeliversOnce | ai-notes-frontend/src/utils/toastBus.js:1-4 | subscribing the same handler twice still gives one delivery per publish |
| ToastBus.PublishToNobody | ai-notes-frontend/src/utils/toastBus.js:9 | publishing with no subscribers changes nothing |
| ToastBus.UnsubscribeTwice | ai-notes-frontend/src/utils/toastBus.js:5 | calling the unsubscribe closure a second time is a no-op |
| ToastBus.ReceivesOnlyWhileSubscribed | ai-notes-frontend/src/utils/toastBus.js:1-12 | over any sequence of subscribes, unsubscribes and publishes, a handler receives exactly the events published while it was subscribed, in order, whatever the handlers throw |
| ToastBus.FailuresAreIsolated | ai-notes-frontend/src/utils/toastBus.js:10 | which handlers throw changes only the error log: the handler set and every delivery are the same |
| ToastBus.RunIgnoresLog | ai-notes-frontend/src/utils/toastBus.js:10 | the error log never influences registration or delivery |
| ToastBus.Bus.constructor | ai-notes-frontend/src/utils/toastBus.js:1 | the bus starts with no handlers and empty logs |
| ToastBus.Bus.Subscribe | ai-notes-frontend/src/utils/toastBus.js:3-4 | `subscribe(h)` replaces the handler set by `Add(handlers, h)` and leaves the logs alone, so afterwards `h` is registered and the set stays duplicate-free |
| ToastBus.Bus.Unsubscribe | ai-notes-frontend/src/utils/toastBus.js:5 | the closure replaces the handler set by `Remove(handlers, h)` and leaves the logs alone; it reports whether `h` was registered |
| ToastBus.Bus.PushToast | ai-notes-frontend/src/utils/toastBus.js:8-12 | the `forEach` loop appends one delivery per handler in order, logs the throwing ones, applies the defaults `success` and 3200, and equals `Step(Pub(...))` |
| ToastLifecycle.MarkHiding | ai-notes-frontend/src/pages/Dashboard.jsx:28 | only toasts with the id become hiding; the others are unchanged; an absent id leaves the list as it is |
| ToastLifecycle.RemoveId | ai-notes-frontend/src/pages/Dashboard.jsx:36 | the filter removes exactly the toasts with the id and keeps the rest as an ordered sub-list |
| ToastLifecycle.RemoveIdCounts | ai-notes-frontend/src/pages/Dashboard.jsx:36 | every copy of a kept toast is kept, and no copy of a toast with the id |
| ToastLifecycle.Find | ai-notes-frontend/src/pages/Dashboard.jsx:505-525 | finds a rendered toast with the id iff one exists |
| ToastLifecycle.EmptyInv | ai-notes-frontend/src/pages/Dashboard.jsx:23-24 | the empty toast list with no timers satisfies the invariant |
| ToastLifecycle.ClearInv | ai-notes-frontend/src/pages/Dashboard.jsx:31-34 | clearing a slot leaves no live timer for the id and touches no other timer |
| ToastLifecycle.ArmInv | ai-notes-frontend/src/pages/Dashboard.jsx:35 | arming after a clear leaves exactly one live timer for the id |
| ToastLifecycle.StartHideInv | ai-notes-frontend/src/pages/Dashboard.jsx:26-40 | after `startHide` the only live timer for the id is the new removal timer |
| ToastLifecycle.PushInv | ai-notes-frontend/src/pages/Dashboard.jsx:42-49 | pushing a toast keeps the invariant |
| ToastLifecycle.ElapseInv | ai-notes-frontend/src/pages/Dashboard.jsx:35-39 | a firing timer keeps the invariant |
| ToastLifecycle.StepInv | ai-notes-frontend/src/pages/Dashboard.jsx:505-523 | every toast event (push, hover enter and leave, close, timer) keeps the invariant |
| ToastLifecycle.RunInv | ai-notes-frontend/src/pages/Dashboard.jsx:26-49 | every sequence of events keeps the invariant |
| ToastLifecycle.AtMostOneTimer | ai-notes-frontend/src/pages/Dashboard.jsx:30-39 | in every state satisfying the invariant, each toast id has at most one pending timer |
| ToastLifecycle.StartHideTwiceOneRemoval | ai-notes-frontend/src/pages/Dashboard.jsx:30-39 | two `startHide` calls in a row leave exactly one scheduled 320 ms removal |
| ToastLifecycle.RemovalFires | ai-notes-frontend/src/pages/Dashboard.jsx:35-39 | the removal timer removes exactly the toasts with its id, keeps the others, and leaves the slot null with no timers |
| ToastLifecycle.HoverEnterPauses | ai-notes-frontend/src/pages/Dashboard.jsx:511-514 | hover-enter clears the id's timer without touching any toast |
| ToastLifecycle.LingeringStep | ai-notes-frontend/src/pages/Dashboard.jsx:515-520 | a hiding toast without a timer stays on screen and hiding through any event except its own close |
| ToastLifecycle.HoveredHidingToastStays | ai-notes-frontend/src/pages/Dashboard.jsx:511-523 | a hiding toast that was hovered stays on screen across any events that do not close it |
| ToastLifecycle.PausedStep | ai-notes-frontend/src/pages/Dashboard.jsx:511-523 | a toast with a null slot and no live timer stays on screen unchanged, and untimed, through every event except its own hover-leave and close |
| ToastLifecycle.PausedRun | ai-notes-frontend/src/pages/Dashboard.jsx:511-523 | the same through any sequence of such events |
| ToastLifecycle.HoveredToastStays | ai-notes-frontend/src/pages/Dashboard.jsx:511-523 | after hover-enter on a toast, visible or hiding, it stays on screen unchanged until the mouse leaves it or it is closed |
| ToastLifecycle.PushThenExpire | ai-notes-frontend/src/pages/Dashboard.jsx:42-49 | a pushed toast is appended visible with its auto-hide timer; when that fires it is marked hiding with a 320 ms removal; when that fires it is off the list |
| ToastLifecycle.ToastPanel.constructor | ai-notes-frontend/src/pages/Dashboard.jsx:23-24 | no toasts, no slots, no timers |
| ToastLifecycle.ToastPanel.StartHiding | ai-notes-frontend/src/pages/Dashboard.jsx:26-40 | equals `StartHide` on the panel state; the new removal timer is the id's only live timer |
| ToastLifecycle.ToastPanel.PushToast | ai-notes-frontend/src/pages/Dashboard.jsx:42-49 | appends one visible toast under a fresh id, leaving earlier toasts unchanged, and arms its timer |
| ToastLifecycle.ToastPanel.OnMouseEnter | ai-notes-frontend/src/pages/Dashboard.jsx:511-514 | equals `HoverEnter`; the toasts are unchanged and the id has no timer |
| ToastLifecycle.ToastPanel.OnMouseLeave | ai-notes-frontend/src/pages/Dashboard.jsx:515-520 | equals `HoverLeave`: an 1800 ms timer only for a toast that is not hiding and has no timer |
| ToastLifecycle.ToastPanel.OnClose | ai-notes-frontend/src/pages/Dashboard.jsx:523 | equals `Close`: `startHide` for a rendered toast |
| ToastLifecycle.ToastPanel.RunTimer | ai-notes-frontend/src/pages/Dashboard.jsx:35-47 | equals `Elapse`; the invariant is kept |
| JsText.TrimEmptyIff | ai-notes-frontend/src/pages/Dashboard.jsx:111 | `s.trim()` is empty exactly when every character of `s` is JavaScript white space |
| JsText.Or | ai-notes-frontend/src/pages/Auth.jsx:22 | `s \|\| d` is `s` when it is non-empty, else `d` |
| NoteList.FilterNotes | ai-notes-frontend/src/pages/Dashboard.jsx:274-280 | the filtered list is an ordered sub-list of the notes, holding exactly the notes that pass the summary filter and the search, each as many times as in the input |
| NoteList.BlankQueryKeepsAll | ai-notes-frontend/src/pages/Dashboard.jsx:273-279 | a query that trims to empty adds no restriction: with `all`, every note is listed in order |
| NoteList.SummaryFiltersPartition | ai-notes-frontend/src/pages/Dashboard.jsx:275-277 | `withSummary` keeps only notes with a non-blank summary, `withoutSummary` only the others, and the two together hold as many notes as `all` |
| NoteList.TotalPages | ai-notes-frontend/src/pages/Dashboard.jsx:282 | there is at least one page |
| NoteList.TotalPagesBounds | ai-notes-frontend/src/pages/Dashboard.jsx:282 | the pages hold every item, and there is no empty trailing page |
| NoteList.CurrentPage | ai-notes-frontend/src/pages/Dashboard.jsx:283 | the current page is clamped into `[1, totalPages]` and is the requested page when that is in range |
| NoteList.PageStart | ai-notes-frontend/src/pages/Dashboard.jsx:284 | the start index of an in-range page lies within the list, with a full page after it on every page but the last |
| NoteList.Paginate | ai-notes-frontend/src/pages/Dashboard.jsx:281-285 | the page items are the contiguous slice of the filtered list from `(current-1)*pageSize`, at most `pageSize` long, full except on the last page, non-empty when anything matches |
| NoteList.ItemOnItsPage | ai-notes-frontend/src/pages/Dashboard.jsx:281-285 | every match is shown: item `i` is at position `i % pageSize` of page `i / pageSize + 1` |
| NoteList.SevenMatchesFivePerPage | ai-notes-frontend/src/pages/Dashboard.jsx:281-285 | 7 matches at 5 per page make 2 pages, holding the first five and the last two |
| NoteList.Press | ai-notes-frontend/src/pages/Dashboard.jsx:300-304 | each page button sets a page in `[1, totalPages]`; prev and next move by one unless at the edge |
| NoteEditor.RemoveNote | ai-notes-frontend/src/pages/Dashboard.jsx:237 | the filter removes every note with the id and keeps every copy of the rest, in order |
| NoteEditor.ReplaceNote | ai-notes-frontend/src/pages/Dashboard.jsx:416 | the map swaps in the returned note wherever the id matches and changes nothing else |
| NoteEditor.PatchSummary | ai-notes-frontend/src/pages/Dashboard.jsx:129 | only notes with the id get the new summary |
| NoteEditor.SelectLoadsNote | ai-notes-frontend/src/pages/Dashboard.jsx:88-97 | selecting loads the note whatever was in the editor; afterwards save is a PUT of that note and summarize stores the summary |
| NoteEditor.NewStartsBlank | ai-notes-frontend/src/pages/Dashboard.jsx:99-108 | "new" clears the editor and leaves the welcome screen; save then creates, and summarize is refused for the empty text |
| NoteEditor.DeleteTarget | ai-notes-frontend/src/pages/Dashboard.jsx:231-232 | a delete request goes out iff a note is selected and the user confirms |
| NoteEditor.DeleteOutcome | ai-notes-frontend/src/pages/Dashboard.jsx:233-246 | a successful delete removes every note with the id, keeps the rest in order, and clears the selection, text and summary but not the title; a failure changes nothing |
| NoteEditor.SaveTarget | ai-notes-frontend/src/pages/Dashboard.jsx:408 | save is a PUT of the editor's fields iff an existing note is being edited, otherwise a POST |
| NoteEditor.SaveOutcome | ai-notes-frontend/src/pages/Dashboard.jsx:405-434 | creating prepends the returned note and selects it; updating replaces only notes with the returned id |
| NoteEditor.SummarizeGuard | ai-notes-frontend/src/pages/Dashboard.jsx:110-118 | a summary request goes out exactly when the text is not blank; it is stored only for an existing note |
| NoteEditor.SummarizeOutcome | ai-notes-frontend/src/pages/Dashboard.jsx:116-156 | a non-empty summary reaches the editor, and for a stored summary the matching list entry; any failure changes nothing and shows a danger toast |
| NoteEditor.AskGuard | ai-notes-frontend/src/pages/Dashboard.jsx:158-166 | the question is checked before the text; a request goes out exactly when neither is blank |
| NoteEditor.AfterAnswer | ai-notes-frontend/src/pages/Dashboard.jsx:167-189 | a non-empty answer is shown with a success toast; otherwise nothing changes and a danger toast is shown |
| AuthForm.RegisterChecks | ai-notes-frontend/src/pages/Auth.jsx:108-128 | a mismatch is rejected first with `danger`, then the username length, then the password length, each with `warning`; the request goes out iff all three pass |
| AuthForm.ShortPasswordExample | ai-notes-frontend/src/pages/Auth.jsx:117-120 | password `"ab"` confirmed as `"ab"` with a valid username gets the password-length warning |
| AuthForm.AfterLogin | ai-notes-frontend/src/pages/Auth.jsx:21-29 | the notice passed to `pushToast`: on success the server message, else `登录成功`, and the page moves on; on failure the server error, else `登录失败`; on an exception the connection notice |
| AuthForm.AfterRegister | ai-notes-frontend/src/pages/Auth.jsx:130-145 | the notice passed to `pushToast`: on success the fixed notice, and the form switches to login; on failure the server error, else the fallback; on an exception the network notice |
| AuthForm.SignInToastsReachNobody | ai-notes-frontend/src/pages/Auth.jsx:20-144 | with no subscriber on the bus, publishing any login, register or form-check notice of the sign-in page changes nothing |
| NotesApi.ListNotes | ai-notes-backend/main.py:67-70 | the listing holds every row once, ordered by strictly decreasing id |
| NotesApi.ApplyUpdate | ai-notes-backend/main.py:103-108 | the id and every field the update leaves out are unchanged |
| NotesApi.ApplyUpdateLaws | ai-notes-backend/main.py:103-108 | each field present overwrites its field; an empty update is the identity; applying an update twice is the same as once |
| NotesApi.NotesTable.Create | ai-notes-backend/main.py:73-83 | adds exactly one row under a fresh id greater than every existing one, with an empty summary |
| NotesApi.NotesTable.Delete | ai-notes-backend/main.py:86-93 | a missing id gives `ok: false` with `笔记未找到` and no change; otherwise exactly that row goes and `ok: true` |
| NotesApi.NotesTable.Update | ai-notes-backend/main.py:96-113 | a missing id gives the id-0 placeholder and no change; otherwise only that row changes, by `ApplyUpdate` |
| NotesApi.NotesTable.StoreSummary | ai-notes-backend/main.py:190-196 | the summary is stored iff the note exists; otherwise nothing changes |
| AuthApi.UserTable.Register | ai-notes-backend/main.py:116-136 | the length check answers first, the database error next, then a taken name; otherwise exactly one user is added with `hash(password)` |
| AuthApi.Login | ai-notes-backend/main.py:139-152 | a success carries `登录成功`; a failure carries one of the two fixed errors |
| AuthApi.LoginSucceedsIff | ai-notes-backend/main.py:142-150 | login succeeds iff the user exists and the password hashes to the stored value; an unknown user and a wrong password get the identical error |
| AuthApi.RegisterThenLogin | ai-notes-backend/main.py:129-150 | after a registration the same credentials log in, and every other account logs in as before |
| AuthApi.ClientLengthChecksMatchServer | ai-notes-frontend/src/pages/Auth.jsx:113-120 | with matching passwords the client's checks pass exactly when the backend's length check does (main.py line 121) |
| AuthApi.LoginToast | ai-notes-frontend/src/pages/Auth.jsx:20-29 | the page moves on iff the credentials are right; the notice it publishes carries the backend's own message or error, never a fallback |
| AuthApi.SubmitRegistration | ai-notes-frontend/src/pages/Auth.jsx:108-145 | the form, the endpoint and the toast together: an account is added iff the form passes, the name is free and the database answers; the notice passed to `pushToast` is never the backend's length error |
| ListSync.SameNotesSameList | ai-notes-backend/main.py:69 | two lists ordered by strictly decreasing id that hold the same notes are equal |
| ListSync.ListingIsListNotes | ai-notes-backend/main.py:69 | any list of exactly the table's rows by decreasing id is the listing |
| ListSync.DeleteKeepsListInSync | ai-notes-frontend/src/pages/Dashboard.jsx:237 | filtering the listing by the deleted id gives the listing after the delete |
| ListSync.CreateKeepsListInSync | ai-notes-frontend/src/pages/Dashboard.jsx:425 | prepending the created note to the listing gives the new listing |
| ListSync.UpdateKeepsListInSync | ai-notes-frontend/src/pages/Dashboard.jsx:416 | swapping in the updated note gives the new listing |
| ListSync.SummaryKeepsListInSync | ai-notes-frontend/src/pages/Dashboard.jsx:129 | patching the summary into the listing gives the listing after the server stores it |
| ListSync.UnknownUpdateLeavesList | ai-notes-backend/main.py:99-101 | the id-0 placeholder reply to an update of a missing note leaves the client's list as it is |
| ListSync.EmptySummaryLeavesCopyStale | ai-notes-frontend/src/pages/Dashboard.jsx:127-132 | a blank AI summary is stored by the server but not patched by the client, so the two lists differ |
| ListSync.DeleteRoundTrip | ai-notes-frontend/src/pages/Dashboard.jsx:230-246 | guard, endpoint and client patch together keep the client's list equal to the server's listing |
| ListSync.SaveRoundTrip | ai-notes-frontend/src/pages/Dashboard.jsx:405-434 | the same for save, by create or by update, including an update of a missing note |
| ListSync.SummarizeRoundTrip | ai-notes-frontend/src/pages/Dashboard.jsx:110-156 | the same for summarize, whenever the generated summary is not blank; when the AI service fails, the table and the screen are unchanged (main.py lines 186-201) |

## Left out

- Browser and server I/O are inputs, not modelled:
  - `fetch`, `res.json()`, `confirm()`, `console.error`;
  - `localStorage` and the current-user display;
  - `navigate` and `handleLogout`.
- `fetchNotes` is not modelled except as an assumption. The round trips start from a client list equal to the listing.
- Real time is not modelled. `setTimeout` delays are stored with each timer but never compared, so timers fire in whatever order the event sequence says. The 700 ms and 2000 ms delayed navigations are a boolean.
- `Date.now() + Math.random()` toast ids are a counter. The source's ids are unique only with high probability.
- The toasts the sign-in page publishes reach no subscriber (see above). The model states this with `SignInToastsReachNobody`; it does not model routing or mounting.
- The wiring from the bus to the dashboard (the `useEffect` subscription at Dashboard.jsx lines 51-56) is not modelled: a delivery to the dashboard's handler is what `ToastPanel.PushToast` models. Handlers that subscribe or unsubscribe from inside a `forEach` call are not modelled.
- The following front-end code is not modelled:
  - JSX rendering, CSS animation and `App.jsx` routing;
  - the loading flags and disabled buttons;
  - the clear button;
  - the effects that reset `page` to 1 (Dashboard.jsx lines 68-76).
- The AI endpoints are external calls to a language model and are not modelled. The one thing kept is the step at main.py lines 190-196 that stores a summary. A failing summarize request, whether the AI service failed or the note is gone, is modelled as a reply with no `summary`.
- The following back-end code is not modelled:
  - `models.py`, its `String(200)` limit on titles and its `String(150)` limit on usernames;
  - SQLAlchemy sessions and commits;
  - CORS.
- SHA-256 is a deterministic function given to the users table.
- Database failure is modelled only for `/register` and `/login`, by the `dbUp` flag of `UserTable.Register` and `Login`. On those endpoints a failed request leaves the users table unchanged.
- The notes endpoints (main.py lines 67-113) have no `try`/`except`, and `NotesTable` has no failure path. A database error there makes FastAPI answer 500, and the client's `res.json()` rejects. That is the `Threw` reply, which `AfterDelete` and `AfterSave` handle by changing nothing. This model assumes the table is then unchanged.
- Partial commits are not modelled.
- Racing requests and double submits are not modelled.
- `JsText.Lower` lower-cases ASCII letters only; Unicode case folding is not modelled.
- String lengths are counted in characters on both sides. JavaScript `.length` counts UTF-16 code units, so a name with characters outside the Basic Multilingual Plane could pass one check and fail the other.
- ListSync.SummarizeRoundTrip: guarantees the client's list matches the server only when the generated summary is not blank, because the source lets them drift apart otherwise (see `EmptySummaryLeavesCopyStale`).
