# Notes API — in-memory note store

A model of the note store behind a small FastAPI notes service. The service
keeps its notes in a module-level dict `notes_db` from integer id to note and
hands out ids from a module-level counter `note_id_counter` that starts at 1.
The store appears twice:

- `main.py` has create, list, get, update (a partial patch) and delete.
- `backend/app/routes/note.py` has create, list and get. Each record there
  also carries the `created_at` time taken when it was created.

Each variant is a Dafny module with three parts:

- a value `Table` of the three pieces of state (the dict, its keys in
  insertion order, the counter) and its representation invariant `Consistent`;
- one function per handler, giving the new table and the reply, plus lemmas
  about single calls and about runs of requests (`Run`);
- a class `NoteStore` whose fields are that state. Its methods change the
  fields in place, as the handlers do, and are proved to perform exactly the
  transitions of the functions.

Files:

- `wrappers.dfy`: `Option`.
- `http.dfy`: the `Ok`/`NotFound` outcome and the 404 detail text.
- `seqs.dfy`: facts about the key order of a dict.
- `models.dfy`: the records of `old_logics/models.py`.
- `schemas.dfy`: the records of `backend/app/schemas/note.py`.
- `notes_api.dfy`: `main.py`.
- `note_routes.dfy`: `backend/app/routes/note.py`.

Update semantics: `main.py` implements a partial patch. Each field the body
supplies replaces the stored one, and each field it leaves out keeps its old
value. The note's id, taken from the stored note, is kept.

List order: a Python dict lists its values in insertion order. Overwriting a
key keeps its place, and `pop` removes it. `order` models this. Ids are handed
out in increasing order and never reinserted, so the list is also in
ascending id order (`Consistent` includes `Increasing(order)`).

Details of the code that the model keeps:

- The code does not check that a title is non-empty. Any string is accepted for
  both fields.
- The records in `main.py` have no `created_at`. Only the router variant
  stamps records with a creation time.
- `delete_note` returns `{"message": "Note deleted successfully", "deleted_note": ...}`.
  This is `Deletion`.

## Model

| member | source | states |
|---|---|---|
| NotesApi.InitialConsistent | main.py:11-13 | the empty dict with counter 1 satisfies the representation invariant |
| NotesApi.AfterCreate | main.py:40-49 | the new note is stored under the old counter value, which no stored note had; every other entry is kept; the store grows by one; the counter moves on by exactly one; the invariant is preserved |
| NotesApi.AllNotes | main.py:54-61 | the list has one note per key: every listed note is the one stored under its id, every stored note is listed, and ids strictly increase along the list |
| NotesApi.Patched | main.py:95-104 | an update keeps the stored note's id, and each field separately takes the supplied value when the patch gives one and keeps the stored value when it does not |
| NotesApi.AfterUpdate | main.py:89-106 | only the entry at `id` changes, to the patched note; keys, order and counter are unchanged; a missing id leaves the table as it was; the invariant is preserved |
| NotesApi.UpdateReply | main.py:89-108 | update answers Ok exactly when the id is stored, with the note now stored under that id; otherwise it answers NotFound for that id |
| NotesApi.AfterDelete | main.py:118-124 | exactly the key `id` is removed, the other entries and the counter are untouched, the store shrinks by one when the id was present, a missing id changes nothing, and the invariant (with the key order) is preserved |
| NotesApi.DeleteReply | main.py:118-129 | delete answers Ok exactly when the id is stored, returning that note with the confirmation message; otherwise it answers NotFound for that id |
| NotesApi.Lookup | main.py:64-77 | get answers Ok exactly when the id is stored, with the stored note; otherwise NotFound for that id, whose detail is the "Note with id ... not found" text |
| NotesApi.CreateFresh | main.py:42-46 | a created note carries the submitted title and content and an id above every stored key |
| NotesApi.CreateThenGet | main.py:42-51 | get of a just-created id returns the created note |
| NotesApi.LookupSpec | main.py:71-77 | get answers Ok exactly when the id is stored, with the note whose id is that id, and NotFound for that id otherwise |
| NotesApi.MissingChangesNothing | main.py:71-75 | on an id that is not stored, get, update and delete answer NotFound and update and delete leave the table equal to before |
| NotesApi.DeleteThenMissing | main.py:118-124 | after a delete, get, update and delete of that id answer NotFound |
| NotesApi.EmptyPatchKeeps | main.py:98-104 | an update that supplies no field stores the note unchanged |
| NotesApi.FullPatchReplaces | main.py:98-104 | an update that supplies both fields replaces both and keeps the id |
| NotesApi.PatchIdempotent | main.py:98-104 | applying the same update twice equals applying it once |
| NotesApi.PatchesCompose | main.py:98-104 | two successive updates equal one update in which the later supplied fields win |
| NotesApi.MergeAsWritten | main.py:98-104 | update as written fails exactly when the body sends title or content as null; otherwise it keeps the id, and each field takes the text sent or keeps the stored value when left out |
| NotesApi.ExplicitNullFails | main.py:98-104 | as written, a body with title or content sent as null makes the update fail |
| NotesApi.CorrectedMerge | main.py:98-104 | the corrected update counts a field sent as null as not supplied: it keeps the id, keeps a field sent as null, and agrees with the code as written on every body without a null |
| NotesApi.Step | main.py:32-129 | every handler preserves the representation invariant |
| NotesApi.Run | main.py:11-129 | a run of requests preserves the invariant and yields one reply per request |
| NotesApi.StepStatus | main.py:32-129 | create answers 201, listing 200, and get, update and delete 200 when the id is stored and otherwise 404 with the detail naming the id; a reply is a 404, and carries a detail, exactly when it is a NotFound |
| NotesApi.StepCounter | main.py:48-49 | a request moves the counter by one exactly when it creates, and the created note gets the old value |
| NotesApi.StepSize | main.py:48 | a request grows the store by one on create, shrinks it by one on a successful delete, and otherwise keeps its size |
| NotesApi.StepKeeps | main.py:71-106 | a request that neither updates nor deletes `id` keeps its note, and a get of `id` returns it |
| NotesApi.StepKeepsGone | main.py:48-49 | a request keeps an issued, missing id missing, and answers NotFound when it targets it |
| NotesApi.RunCounter | main.py:49 | over a run the counter advances by exactly the number of creates; delete never moves it |
| NotesApi.RunIds | main.py:43-49 | the i-th create of a run gets id `counter + i`, deletes notwithstanding, so no id is ever handed out twice |
| NotesApi.RunSize | main.py:48-61 | at the end of a run the store holds its initial notes plus the creates minus the successful deletes |
| NotesApi.FromInitial | main.py:12-61 | from start-up, the creates get ids 1, 2, ..., N, and listing returns N − M notes after N creates and M successful deletes |
| NotesApi.GoneStaysGone | main.py:118-129 | an issued id that is no longer stored stays missing for the rest of any run, and every get, update or delete of it answers NotFound |
| NotesApi.DeleteIsFinal | main.py:118-129 | a delete returns the removed note, and every later get, update or delete of its id answers NotFound |
| NotesApi.Persists | main.py:71-106 | a note that no request updates or deletes stays unchanged, and every get of it returns it |
| NotesApi.CreateGetRoundTrip | main.py:42-77 | the note create returns is what every later get of its id returns, as long as nothing updates or deletes it |
| NotesApi.NoteStore.constructor | main.py:11-13 | the store starts empty with counter 1 |
| NotesApi.NoteStore.Create | main.py:40-51 | returns the note with the old counter as id and the submitted fields, stores it under that fresh key, appends the key to the order, and advances the counter by one |
| NotesApi.NoteStore.GetAll | main.py:54-61 | returns exactly the stored notes, one per key, in ascending id order |
| NotesApi.NoteStore.Get | main.py:64-77 | returns the stored note when the id is a key (its id equals the key), NotFound for that id otherwise |
| NotesApi.NoteStore.Update | main.py:80-108 | a missing id answers NotFound and changes nothing; otherwise the patched note replaces the entry at `id` and is returned, and order and counter are unchanged |
| NotesApi.NoteStore.Delete | main.py:111-129 | a missing id answers NotFound and changes nothing; otherwise the entry is popped and returned with the message, its key leaves the order, and the counter is unchanged |
| NotesApi.CreateDeleteCreate | main.py:40-124 | create, delete, create from start-up gives ids 1 and 2, and the deleted id then answers NotFound |
| Http.NotFoundDetail | main.py:72-75 | the 404 detail is "Note with id ", the id in decimal, then " not found" |
| Http.DigitsRoundTrip | main.py:74 | the decimal digits of an id read back as that id |
| Http.IntTextInjective | main.py:74 | distinct ids render to distinct text, negative ids included |
| Http.NotFoundDetailInjective | main.py:72-75 | two 404 details are equal exactly when their ids are |
| Seqs.Without | main.py:124 | `pop` removes exactly the key from the key order and leaves a key order without it unchanged; for an ascending key order (the only kind the store has), the result is ascending, so the rest stays in order, and it is one shorter when the key was present |
| Seqs.ValuesAt | main.py:61 | the listed values are the dict's values at its keys, position by position |
| NoteRoutes.InitialConsistent | backend/app/routes/note.py:10-14 | the empty dict with counter 1 satisfies the router's invariant |
| NoteRoutes.AfterCreate | backend/app/routes/note.py:25-37 | the record is stored under the old counter value, which was free; existing records are kept; the counter moves on by one; the invariant (keys exactly 1 .. counter − 1, in order) is preserved |
| NoteRoutes.StoreSize | backend/app/routes/note.py:36-37 | the router stores exactly as many records as ids were handed out |
| NoteRoutes.AllNotes | backend/app/routes/note.py:42-49 | the list has counter − 1 records, the i-th being the one with id i + 1 |
| NoteRoutes.Lookup | backend/app/routes/note.py:52-65 | get answers Ok exactly when the id is stored, with the stored record; otherwise NotFound for that id, whose detail is the "Note with id ... not found" text |
| NoteRoutes.LookupSpec | backend/app/routes/note.py:52-65 | get answers Ok exactly for the ids handed out so far, returning the stored record unchanged, and NotFound for that id otherwise |
| NoteRoutes.CreateThenGet | backend/app/routes/note.py:28-39 | get of a just-created id returns the created record, carrying the submitted title and content and the creation time |
| NoteRoutes.Step | backend/app/routes/note.py:17-65 | every handler preserves the router's invariant |
| NoteRoutes.Run | backend/app/routes/note.py:10-65 | a run preserves the invariant and yields one reply per request |
| NoteRoutes.RecordsAreFixed | backend/app/routes/note.py:28-37 | a stored record, its `created_at` included, never changes afterwards |
| NoteRoutes.StepStatus | backend/app/routes/note.py:17-65 | create answers 201, listing 200, and get 200 exactly for the ids handed out so far, otherwise 404 with the detail naming the id |
| NoteRoutes.RunCounter | backend/app/routes/note.py:37 | over a run the counter advances by exactly the number of creates |
| NoteRoutes.RunIds | backend/app/routes/note.py:14-37 | the creates of a run get strictly increasing, consecutive ids: exactly those from the counter at its start up to the counter at its end, in order |
| NoteRoutes.FromInitial | backend/app/routes/note.py:14-49 | from start-up, after N creates, the creates got ids 1, 2, ..., N, and listing returns N records with those ids in that order |
| NoteRoutes.GetAfter | backend/app/routes/note.py:59-65 | a get in the middle of a run returns the record as it was when the run began |
| NoteRoutes.CreateGetRoundTrip | backend/app/routes/note.py:28-65 | the record create returns is what every later get of its id returns, creation time included |
| NoteRoutes.NoteStore.constructor | backend/app/routes/note.py:10-14 | the router starts empty with counter 1 |
| NoteRoutes.NoteStore.Create | backend/app/routes/note.py:25-39 | returns the record with the old counter as id, the submitted fields and `created_at` = the given time, stores it under that fresh key, and advances the counter by one |
| NoteRoutes.NoteStore.GetAll | backend/app/routes/note.py:42-49 | returns the stored records in id order 1 .. counter − 1, and nothing when the store is empty |
| NoteRoutes.NoteStore.Get | backend/app/routes/note.py:52-65 | returns the stored record, with its creation time, exactly for ids handed out so far; NotFound for that id otherwise |
| NoteRoutes.CreateTwice | backend/app/routes/note.py:25-49 | two creates from start-up get ids 1 and 2, each with its own creation time, and are listed in that order |

## Left out

- Framework wiring is not modelled: the FastAPI app, route decorators, the root and information endpoints (`read_root`, `root`), router prefixes and tags, and CORS configuration. A reply is modelled by its status code and its 404 detail, not as an HTTP response body.
- Request validation by the schemas (a 422 for a missing or mistyped field) happens before any handler runs. The handlers take already-validated records.
- The database engine and table creation (`backend/app/init_db.py`) are calls into SQLAlchemy with no visible logic. `backend/app/database.py` and `backend/app/models.py` are not part of this model.
- The health router imported by `backend/app/main.py` is not part of this model.
- `datetime.now()` is clock input and becomes the `now` parameter of the router's create. The model makes no claim that successive creation times increase, because the wall clock can go backwards.
- Concurrency is not modelled: races between simultaneous requests on the shared dict and counter. Requests run one after another.
- FastAPI's conversion of the router's stored dict to the `NoteFetch` response model is not modelled. The stored record is modelled directly as that `NoteFetch` value, because its keys are exactly the schema's fields.
- `model_dump(exclude_unset=True)` itself is not modelled. The update body is a record of three-way fields (`BodyField`), and the store's update takes the resulting `NoteUpdate` of optional fields.
- `NoteStore.Update`, `Step` and `Run` take a `NoteUpdate`, which cannot hold a field sent as JSON null. So the failure of update on a body such as `{"title": null}` appears only in `MergeAsWritten` (see Findings), and the store's update is the corrected one.

## Findings

| source | as written | input that shows it | evidently intended | confidence | as-written member | corrected member |
|---|---|---|---|---|---|---|
| main.py:98-104 | a field sent as JSON null passes the `NoteUpdate` schema, `model_dump(exclude_unset=True)` keeps it as None, and `Note(title=None)` then fails validation inside the handler, so the request errors instead of updating | `PUT /notes/1` with body `{"title": null}` on a stored note 1 | a null field is treated like an omitted one and the stored value is kept | medium, not executed | NotesApi.ExplicitNullFails | NotesApi.CorrectedMerge |
