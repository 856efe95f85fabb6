/** The request and response records of the in-memory notes API. */
module Models {
  import opened Wrappers

  /** Body of a create request: both fields required. */
  datatype NoteCreate = NoteCreate(title: string, content: string)

  /** Body of an update request: each field may be left unset. */
  datatype NoteUpdate = NoteUpdate(title: Option<string>, content: Option<string>)

  /** A stored note. */
  datatype Note = Note(id: int, title: string, content: string)
}
