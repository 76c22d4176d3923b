/** The shapes of the database requests the forms issue. The request itself
    (the Supabase client call and its network round trip) is not modelled;
    its outcome reaches the model as a parameter. */
module Db {
  datatype Option<T> = None | Some(value: T)

  /** `x || null` on a text field. */
  function NullIfEmpty(s: string): (r: Option<string>)
    ensures r.None? <==> s == ""
    ensures r.Some? ==> r.value == s
  {
    if s == "" then None else Some(s)
  }

  /** `x || ""` on a nullable text field. */
  function EmptyIfNull(s: Option<string>): (r: string)
    ensures s.None? ==> r == ""
    ensures s.Some? ==> r == s.value
  {
    if s.Some? then s.value else ""
  }

  /** `.insert(row)` or `.update(row).eq("id", id)` on a table. */
  datatype Write<R> = Insert(row: R) | Update(id: string, row: R)

  /** The id a form was opened for, when it edits an existing record. The
      `row?.id` test of the forms: an absent or empty id means "new". */
  function WriteFor<R>(id: Option<string>, row: R): (w: Write<R>)
    ensures w.row == row
    ensures w.Update? <==> id.Some? && id.value != ""
    ensures w.Update? ==> w.id == id.value
  {
    if id.Some? && id.value != "" then Update(id.value, row) else Insert(row)
  }
}
