/** The hosted database as the admin editors see it: a table maps row ids to rows. An editor
    either updates the row it was opened on or inserts a new one; deleting removes one id. */
module Store {
  import opened Wrappers

  type Table<R> = map<string, R>

  /** The one write a form submission issues. */
  datatype Write<R> = Update(id: string, row: R) | Insert(row: R)

  /** An editor opened on an existing row (`editing` holds its id) updates that row; an editor
      opened empty inserts. Exactly one of the two is chosen, with the same payload. The
      editors test whether they hold a row (`if (project)`), so an edited row with an empty
      id would still be updated; the generic `useAdminForm` hook, which the settings editor
      uses, tests `if (id)` instead, so there an empty id would insert. */
  function Save<R>(editing: Option<string>, payload: R): (w: Write<R>)
    ensures w.Update? <==> editing.Some?
    ensures w.Update? ==> w.id == editing.value
    ensures w.row == payload
  {
    match editing
    case Some(id) => Update(id, payload)
    case None => Insert(payload)
  }

  /** The table after a write. An update of an id that is not in the table matches no row and
      changes nothing; an insert receives the id the database generates, `freshId`. */
  function Apply<R>(table: Table<R>, w: Write<R>, freshId: string): (t: Table<R>)
    requires w.Insert? ==> freshId !in table
    ensures w.Update? ==> t.Keys == table.Keys
    ensures w.Update? && w.id in table ==> t[w.id] == w.row
    ensures w.Insert? ==> t.Keys == table.Keys + {freshId} && t[freshId] == w.row
    ensures forall k | k in table && (w.Update? ==> k != w.id) :: t[k] == table[k]
  {
    match w
    case Update(id, row) => if id in table then table[id := row] else table
    case Insert(row) => table[freshId := row]
  }

  /** Deleting by id removes exactly that row. */
  function Delete<R>(table: Table<R>, id: string): (t: Table<R>)
    ensures t.Keys == table.Keys - {id}
    ensures forall k | k in t :: t[k] == table[k]
  {
    table - {id}
  }
}
