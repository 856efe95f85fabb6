/** The validation schemas of the notes router. */
module Schemas {
  import opened Wrappers

  /** A reading of the clock, `datetime.now()`; only compared for equality. */
  datatype DateTime = DateTime(ticks: int)

  /** Body of a create request: both fields required. */
  datatype NoteCreate = NoteCreate(title: string, content: string)

  /** A note as the router returns it; `created_at` defaults to None. */
  datatype NoteFetch = NoteFetch(id: int, title: string, content: string, createdAt: Option<DateTime>)
}
