// Shared vocabulary of the notes application: optional values, the outcome
// of a network round trip, toast variants and the note record that both the
// backend and the browser client pass around.

module Basics {

  datatype Option<+T> = None | Some(value: T) {
    function GetOr(default: T): T {
      match this
      case Some(v) => v
      case None => default
    }
  }

  /** The outcome of `await fetch(...)` followed by `await res.json()`:
      either the decoded body, or a rejection (network down, bad JSON). */
  datatype Fetch<+T> = Got(data: T) | Threw

  /** The closed set of toast styles. */
  datatype Variant = Success | Danger | Warning | Info

  /** One call `pushToast(message, variant)` made by a page. */
  datatype Notice = Notice(message: string, variant: Variant)

  /** A note as the backend's response model and the client's list hold it. */
  datatype Note = Note(id: int, title: string, text: string, summary: string)

  /** The body of `DELETE /notes/{id}`: `{"ok": true}` or
      `{"ok": false, "error": ...}`; an absent error is written "". */
  datatype DeleteReply = DeleteReply(ok: bool, error: string)

  /** The body of `/login` and `/register`: `ok`, and a `message` on
      success or an `error` on failure; an absent string is "". */
  datatype AuthReply = AuthReply(ok: bool, message: string, error: string)

  /** `a` is `b` with some elements left out and the rest kept in order. */
  predicate IsSubsequence<T(==)>(a: seq<T>, b: seq<T>)
    decreases |b|
  {
    a == [] || (b != [] && ((a[0] == b[0] && IsSubsequence(a[1..], b[1..])) || IsSubsequence(a, b[1..])))
  }
}
