/**
 * The in-memory notes API: a dict `notes_db` from id to note and a counter
 * `note_id_counter` that hands out ids, behind the handlers create_note,
 * get_all_notes, get_note, update_note and delete_note.
 *
 * The table is given twice: as a value (`Table`, with one function per
 * handler and the lemmas about runs of requests) and as the mutable store
 * the handlers change in place (`NoteStore`), whose methods are proved to
 * perform exactly the transitions of the functions.
 */
module NotesApi {
  import opened Wrappers
  import opened Http
  import opened Seqs
  import opened Models

  /** The initial value of `note_id_counter`. */
  const FirstId: int := 1

  const DeletedMessage: string := "Note deleted successfully"

  /** The body of a successful delete: the message and the removed note. */
  datatype Deletion = Deletion(message: string, deletedNote: Note)

  /**
   * The state of the store: `notes` is `notes_db`, `order` its keys in
   * insertion order (the order in which a dict lists its values), and
   * `counter` is `note_id_counter`.
   */
  datatype Table = Table(notes: map<int, Note>, order: seq<int>, counter: int)

  /** The store before any request. */
  const Initial: Table := Table(map[], [], FirstId)

  /**
   * The representation invariant: every key maps to the note with that id,
   * every key was handed out by the counter, and `order` lists each key once,
   * ascending.
   */
  ghost predicate Consistent(t: Table)
  {
    && FirstId <= t.counter
    && (forall k :: k in t.notes ==> t.notes[k].id == k && FirstId <= k < t.counter)
    && (forall k :: k in t.notes <==> k in t.order)
    && Increasing(t.order)
  }

  lemma InitialConsistent()
    ensures Consistent(Initial)
  {
  }

  // ---------------------------------------------------------------- create

  /** The note create_note builds: the current counter value as its id. */
  function NewNote(t: Table, input: NoteCreate): Note
  {
    Note(t.counter, input.title, input.content)
  }

  /** The store after create_note: the note is stored under its id and the counter moves on by one. */
  function AfterCreate(t: Table, input: NoteCreate): (r: Table)
    requires Consistent(t)
    ensures Consistent(r)
    ensures t.counter !in t.notes
    ensures r.notes.Keys == t.notes.Keys + {t.counter}
    ensures r.notes[t.counter] == NewNote(t, input)
    ensures forall k :: k in t.notes ==> r.notes[k] == t.notes[k]
    ensures |r.notes| == |t.notes| + 1
    ensures r.counter == t.counter + 1
  {
    AppendIncreasing(t.order, t.counter);
    Table(t.notes[t.counter := NewNote(t, input)], t.order + [t.counter], t.counter + 1)
  }

  // ------------------------------------------------------------------ list

  /** Consistency makes `order` list exactly the keys, each once. */
  lemma OrderListsKeys(t: Table)
    requires Consistent(t)
    ensures |t.order| == |t.notes|
    ensures forall i :: 0 <= i < |t.order| ==> t.order[i] in t.notes
  {
    IncreasingCard(t.order);
    assert (set y | y in t.order) == t.notes.Keys;
  }

  /** What get_all_notes returns: every stored note once, in insertion order. */
  function AllNotes(t: Table): (r: seq<Note>)
    requires Consistent(t)
    ensures |r| == |t.notes|
    ensures forall i :: 0 <= i < |r| ==> r[i].id in t.notes && t.notes[r[i].id] == r[i]
    ensures forall k :: k in t.notes ==> t.notes[k] in r
    ensures forall i, j :: 0 <= i < j < |r| ==> r[i].id < r[j].id
  {
    OrderListsKeys(t);
    var r := ValuesAt(t.notes, t.order);
    assert forall i :: 0 <= i < |r| ==> r[i].id == t.order[i];
    assert forall k :: k in t.notes ==> t.notes[k] in r by {
      forall k | k in t.notes ensures t.notes[k] in r {
        var i :| 0 <= i < |t.order| && t.order[i] == k;
        assert r[i] == t.notes[k];
      }
    }
    r
  }

  // ------------------------------------------------------------------- get

  /** What get_note answers: the note stored under `id`, or a 404 naming `id`. */
  function Lookup(t: Table, id: int): (r: Outcome<Note>)
    ensures r.Ok? <==> id in t.notes
    ensures r.Ok? ==> r.value == t.notes[id]
    ensures r.NotFound? ==> r.id == id && r.Detail() == Some(NotFoundDetail(id))
  {
    if id in t.notes then Ok(t.notes[id]) else NotFound(id)
  }

  // ---------------------------------------------------------------- update

  /** The note update_note stores: the id kept, each supplied field replacing the stored one. */
  function Patched(existing: Note, patch: NoteUpdate): (r: Note)
    ensures r.id == existing.id
    ensures patch.title.None? ==> r.title == existing.title
    ensures patch.title.Some? ==> r.title == patch.title.value
    ensures patch.content.None? ==> r.content == existing.content
    ensures patch.content.Some? ==> r.content == patch.content.value
  {
    Note(existing.id, patch.title.GetOr(existing.title), patch.content.GetOr(existing.content))
  }

  /** The store after update_note: only the entry at `id` changes, and only when it exists. */
  function AfterUpdate(t: Table, id: int, patch: NoteUpdate): (r: Table)
    requires Consistent(t)
    ensures Consistent(r)
    ensures r.notes.Keys == t.notes.Keys && r.order == t.order && r.counter == t.counter
    ensures id in t.notes ==> r.notes[id] == Patched(t.notes[id], patch)
    ensures forall k :: k in t.notes && k != id ==> r.notes[k] == t.notes[k]
    ensures id !in t.notes ==> r == t
  {
    if id in t.notes then
      Table(t.notes[id := Patched(t.notes[id], patch)], t.order, t.counter)
    else
      t
  }

  /** What update_note answers: the note now stored, or 404. */
  function UpdateReply(t: Table, id: int, patch: NoteUpdate): (r: Outcome<Note>)
    requires Consistent(t)
    ensures r.Ok? <==> id in t.notes
    ensures r.Ok? ==> r.value == AfterUpdate(t, id, patch).notes[id] && r.value.id == id
    ensures r.NotFound? ==> r.id == id
  {
    if id in t.notes then Ok(Patched(t.notes[id], patch)) else NotFound(id)
  }

  // ---------------------------------------------------------------- delete

  /** The store after delete_note: exactly the entry at `id` is gone; the counter is untouched. */
  function AfterDelete(t: Table, id: int): (r: Table)
    requires Consistent(t)
    ensures Consistent(r)
    ensures r.notes.Keys == t.notes.Keys - {id}
    ensures forall k :: k in r.notes ==> r.notes[k] == t.notes[k]
    ensures |r.notes| == if id in t.notes then |t.notes| - 1 else |t.notes|
    ensures r.counter == t.counter
    ensures id !in t.notes ==> r == t
  {
    if id in t.notes then
      var r := Table(t.notes - {id}, Without(t.order, id), t.counter);
      assert r.notes.Keys == t.notes.Keys - {id};
      r
    else
      t
  }

  /** What delete_note answers: the removed note with the confirmation message, or 404. */
  function DeleteReply(t: Table, id: int): (r: Outcome<Deletion>)
    requires Consistent(t)
    ensures r.Ok? <==> id in t.notes
    ensures r.Ok? ==> r.value.deletedNote == t.notes[id] && r.value.deletedNote.id == id
    ensures r.Ok? ==> r.value.message == DeletedMessage
    ensures r.NotFound? ==> r.id == id
  {
    if id in t.notes then Ok(Deletion(DeletedMessage, t.notes[id])) else NotFound(id)
  }

  // ------------------------------------------------ properties of one call

  /** A created note carries the submitted fields and an id no stored note has. */
  lemma CreateFresh(t: Table, input: NoteCreate)
    requires Consistent(t)
    ensures NewNote(t, input).title == input.title && NewNote(t, input).content == input.content
    ensures forall k :: k in t.notes ==> k < NewNote(t, input).id
  {
  }

  /** Get after create returns exactly the created note. */
  lemma CreateThenGet(t: Table, input: NoteCreate)
    requires Consistent(t)
    ensures Lookup(AfterCreate(t, input), NewNote(t, input).id) == Ok(NewNote(t, input))
  {
  }

  /** Get answers with the stored note when the id is present, and with 404 otherwise. */
  lemma LookupSpec(t: Table, id: int)
    requires Consistent(t)
    ensures Lookup(t, id).Ok? <==> id in t.notes
    ensures Lookup(t, id).Ok? ==> Lookup(t, id).value.id == id
    ensures Lookup(t, id).NotFound? ==> Lookup(t, id).id == id
  {
  }

  /** On a missing id, get, update and delete answer 404 and leave the store as it was. */
  lemma MissingChangesNothing(t: Table, id: int, patch: NoteUpdate)
    requires Consistent(t)
    requires id !in t.notes
    ensures Lookup(t, id) == NotFound(id)
    ensures UpdateReply(t, id, patch) == NotFound(id) && AfterUpdate(t, id, patch) == t
    ensures DeleteReply(t, id) == NotFound(id) && AfterDelete(t, id) == t
  {
  }

  /** After a delete, get, update and delete on that id answer 404. */
  lemma DeleteThenMissing(t: Table, id: int, patch: NoteUpdate)
    requires Consistent(t)
    requires id in t.notes
    ensures Lookup(AfterDelete(t, id), id) == NotFound(id)
    ensures UpdateReply(AfterDelete(t, id), id, patch) == NotFound(id)
    ensures DeleteReply(AfterDelete(t, id), id) == NotFound(id)
  {
  }

  /** An update that supplies nothing stores the note unchanged. */
  lemma EmptyPatchKeeps(n: Note)
    ensures Patched(n, NoteUpdate(None, None)) == n
  {
  }

  /** An update that supplies both fields replaces both and keeps only the id. */
  lemma FullPatchReplaces(n: Note, title: string, content: string)
    ensures Patched(n, NoteUpdate(Some(title), Some(content))) == Note(n.id, title, content)
  {
  }

  /** Sending the same update twice has the effect of sending it once. */
  lemma PatchIdempotent(n: Note, patch: NoteUpdate)
    ensures Patched(Patched(n, patch), patch) == Patched(n, patch)
  {
  }

  /** The fields of `later` where it supplies one, else those of `earlier`. */
  function ThenPatch(earlier: NoteUpdate, later: NoteUpdate): NoteUpdate
  {
    NoteUpdate(if later.title.Some? then later.title else earlier.title,
               if later.content.Some? then later.content else earlier.content)
  }

  /** Two successive updates amount to one update with the later fields winning. */
  lemma PatchesCompose(n: Note, earlier: NoteUpdate, later: NoteUpdate)
    ensures Patched(Patched(n, earlier), later) == Patched(n, ThenPatch(earlier, later))
  {
  }

  // ----------------------------------------- the update body as submitted

  /**
   * One field of an update body as the schema sees it: left out, sent as
   * JSON null (allowed, since the field is `Optional[str]`), or sent as text.
   */
  datatype BodyField = Unset | Null | Given(text: string)

  datatype UpdateBody = UpdateBody(title: BodyField, content: BodyField)

  /**
   * update_note as written: `model_dump(exclude_unset=True)` keeps a field
   * sent as null, `dict.get` then yields None, and building the `Note` with a
   * None title or content fails validation (None here: the handler raises).
   */
  function MergeAsWritten(existing: Note, body: UpdateBody): (r: Option<Note>)
    ensures r.None? <==> body.title.Null? || body.content.Null?
    ensures r.Some? ==> r.value.id == existing.id
    ensures r.Some? ==> r.value.title == (if body.title.Given? then body.title.text else existing.title)
    ensures r.Some? ==> r.value.content == (if body.content.Given? then body.content.text else existing.content)
  {
    if body.title.Null? || body.content.Null? then None
    else
      Some(Note(existing.id,
                if body.title.Given? then body.title.text else existing.title,
                if body.content.Given? then body.content.text else existing.content))
  }

  /** A null field counts as not supplied: the reading under which every body the schema accepts can be applied. */
  function ToPatch(body: UpdateBody): (p: NoteUpdate)
    ensures p.title.Some? <==> body.title.Given?
    ensures p.content.Some? <==> body.content.Given?
  {
    NoteUpdate(if body.title.Given? then Some(body.title.text) else None,
               if body.content.Given? then Some(body.content.text) else None)
  }

  /** A body with an explicit null, accepted by the schema, makes update_note fail as written. */
  lemma ExplicitNullFails(existing: Note)
    ensures MergeAsWritten(existing, UpdateBody(Null, Unset)) == None
    ensures MergeAsWritten(existing, UpdateBody(Unset, Null)) == None
  {
  }

  /**
   * The corrected update applies every accepted body, keeps a field sent as
   * null, and agrees with the code as written on every body without a null.
   */
  lemma CorrectedMerge(existing: Note, body: UpdateBody)
    ensures Patched(existing, ToPatch(body)).id == existing.id
    ensures body.title.Null? ==> Patched(existing, ToPatch(body)).title == existing.title
    ensures body.content.Null? ==> Patched(existing, ToPatch(body)).content == existing.content
    ensures !body.title.Null? && !body.content.Null? ==> MergeAsWritten(existing, body) == Some(Patched(existing, ToPatch(body)))
  {
  }

  // ------------------------------------------------------- runs of requests

  /** A request to one of the five handlers. */
  datatype Request =
    | CreateNote(input: NoteCreate)
    | GetAllNotes
    | GetNote(id: int)
    | UpdateNote(id: int, patch: NoteUpdate)
    | DeleteNote(id: int)

  /** A handler's answer. */
  datatype Reply =
    | Created(note: Note)
    | Listed(all: seq<Note>)
    | Fetched(found: Outcome<Note>)
    | Updated(patched: Outcome<Note>)
    | Deleted(removed: Outcome<Deletion>)
  {
    /** The status code of the response: 201 for create, the outcome's for get, update and delete, 200 otherwise. */
    function Status(): int
    {
      match this
      case Created(_) => HTTP_201_CREATED
      case Listed(_) => HTTP_200_OK
      case Fetched(o) => o.Status()
      case Updated(o) => o.Status()
      case Deleted(o) => o.Status()
    }

    /** The `detail` text of an error response. */
    function Detail(): Option<string>
    {
      match this
      case Created(_) => None
      case Listed(_) => None
      case Fetched(o) => o.Detail()
      case Updated(o) => o.Detail()
      case Deleted(o) => o.Detail()
    }
  }

  datatype Transition = Transition(table: Table, reply: Reply)

  /** One request served against the store. */
  function Step(t: Table, req: Request): (r: Transition)
    requires Consistent(t)
    ensures Consistent(r.table)
  {
    match req
    case CreateNote(input) => Transition(AfterCreate(t, input), Created(NewNote(t, input)))
    case GetAllNotes => Transition(t, Listed(AllNotes(t)))
    case GetNote(id) => Transition(t, Fetched(Lookup(t, id)))
    case UpdateNote(id, patch) => Transition(AfterUpdate(t, id, patch), Updated(UpdateReply(t, id, patch)))
    case DeleteNote(id) => Transition(AfterDelete(t, id), Deleted(DeleteReply(t, id)))
  }

  datatype Trace = Trace(table: Table, replies: seq<Reply>)

  /** Requests served one after another: the final store and one reply per request. */
  function Run(t: Table, reqs: seq<Request>): (r: Trace)
    requires Consistent(t)
    ensures Consistent(r.table)
    ensures |r.replies| == |reqs|
    decreases |reqs|
  {
    if reqs == [] then Trace(t, [])
    else
      var s := Step(t, reqs[0]);
      var rest := Run(s.table, reqs[1..]);
      Trace(rest.table, [s.reply] + rest.replies)
  }

  /** The ids of the notes created in a run, in order. */
  function CreatedIds(replies: seq<Reply>): seq<int>
  {
    if replies == [] then []
    else (if replies[0].Created? then [replies[0].note.id] else []) + CreatedIds(replies[1..])
  }

  /** How many deletes in a run removed a note. */
  function RemovedCount(replies: seq<Reply>): nat
  {
    if replies == [] then 0
    else (if replies[0].Deleted? && replies[0].removed.Ok? then 1 else 0) + RemovedCount(replies[1..])
  }

  /** A request that reads, changes or removes the note at `id`. */
  predicate Targets(req: Request, id: int)
  {
    (req.GetNote? || req.UpdateNote? || req.DeleteNote?) && req.id == id
  }

  /** A request that changes or removes the note at `id`. */
  predicate Touches(req: Request, id: int)
  {
    (req.UpdateNote? || req.DeleteNote?) && req.id == id
  }

  /** A 404 answer. */
  predicate IsNotFound(rep: Reply)
  {
    || (rep.Fetched? && rep.found.NotFound?)
    || (rep.Updated? && rep.patched.NotFound?)
    || (rep.Deleted? && rep.removed.NotFound?)
  }

  /**
   * The status code and detail of every answer: 201 for a create, 200 for a
   * listing, and for get, update and delete 200 when the id is stored and
   * otherwise 404 with a detail naming the id.
   */
  lemma StepStatus(t: Table, req: Request, id: int)
    requires Consistent(t)
    ensures req.CreateNote? ==> Step(t, req).reply.Status() == HTTP_201_CREATED
    ensures req.GetAllNotes? ==> Step(t, req).reply.Status() == HTTP_200_OK
    ensures Targets(req, id) ==> Step(t, req).reply.Status() == if id in t.notes then HTTP_200_OK else HTTP_404_NOT_FOUND
    ensures Targets(req, id) && id !in t.notes ==> Step(t, req).reply.Detail() == Some(NotFoundDetail(id))
    ensures Step(t, req).reply.Status() == HTTP_404_NOT_FOUND <==> IsNotFound(Step(t, req).reply)
    ensures Step(t, req).reply.Detail().Some? <==> IsNotFound(Step(t, req).reply)
  {
  }

  /** One request moves the counter by one exactly when it creates, and the created note gets the old value. */
  lemma StepCounter(t: Table, req: Request)
    requires Consistent(t)
    ensures Step(t, req).table.counter == if Step(t, req).reply.Created? then t.counter + 1 else t.counter
    ensures Step(t, req).reply.Created? ==> Step(t, req).reply.note.id == t.counter
  {
  }

  /** One request grows the store by one on a create and shrinks it by one on a successful delete. */
  lemma StepSize(t: Table, req: Request)
    requires Consistent(t)
    ensures |Step(t, req).table.notes| + (if Step(t, req).reply.Deleted? && Step(t, req).reply.removed.Ok? then 1 else 0)
         == |t.notes| + (if Step(t, req).reply.Created? then 1 else 0)
  {
  }

  /** A request that neither updates nor deletes `id` keeps its note, and a get of it returns it. */
  lemma StepKeeps(t: Table, req: Request, id: int)
    requires Consistent(t)
    requires id in t.notes && !Touches(req, id)
    ensures id in Step(t, req).table.notes && Step(t, req).table.notes[id] == t.notes[id]
    ensures req == GetNote(id) ==> Step(t, req).reply == Fetched(Ok(t.notes[id]))
  {
  }

  /** A request keeps a handed-out, missing id missing, and one that targets it answers 404. */
  lemma StepKeepsGone(t: Table, req: Request, id: int)
    requires Consistent(t)
    requires id < t.counter && id !in t.notes
    ensures id !in Step(t, req).table.notes && id < Step(t, req).table.counter
    ensures Targets(req, id) ==> IsNotFound(Step(t, req).reply)
  {
  }

  /** Unfolding a run by its first request. */
  lemma RunCons(t: Table, reqs: seq<Request>)
    requires Consistent(t)
    requires reqs != []
    ensures Run(t, reqs).table == Run(Step(t, reqs[0]).table, reqs[1..]).table
    ensures Run(t, reqs).replies == [Step(t, reqs[0]).reply] + Run(Step(t, reqs[0]).table, reqs[1..]).replies
  {
  }

  /** The i-th reply of a run, for i > 0, is a reply of the run of the remaining requests. */
  lemma RunTail(t: Table, reqs: seq<Request>, i: int)
    requires Consistent(t)
    requires 1 <= i < |reqs|
    ensures reqs[1..][i - 1] == reqs[i]
    ensures Run(t, reqs).replies[i] == Run(Step(t, reqs[0]).table, reqs[1..]).replies[i - 1]
  {
    var s := Step(t, reqs[0]);
    RunCons(t, reqs);
    ConsIndex(s.reply, Run(s.table, reqs[1..]).replies, i);
  }

  lemma CreatedIdsCons(rep: Reply, replies: seq<Reply>)
    ensures CreatedIds([rep] + replies) == (if rep.Created? then [rep.note.id] else []) + CreatedIds(replies)
  {
    assert ([rep] + replies)[1..] == replies;
  }

  lemma RemovedCountCons(rep: Reply, replies: seq<Reply>)
    ensures RemovedCount([rep] + replies) == (if rep.Deleted? && rep.removed.Ok? then 1 else 0) + RemovedCount(replies)
  {
    assert ([rep] + replies)[1..] == replies;
  }

  /** The counter advances by exactly one per create of a run. */
  lemma {:induction false} RunCounter(t: Table, reqs: seq<Request>)
    requires Consistent(t)
    ensures Run(t, reqs).table.counter == t.counter + |CreatedIds(Run(t, reqs).replies)|
    decreases |reqs|
  {
    if reqs != [] {
      var s := Step(t, reqs[0]);
      var rest := Run(s.table, reqs[1..]);
      RunCons(t, reqs);
      StepCounter(t, reqs[0]);
      RunCounter(s.table, reqs[1..]);
      CreatedIdsCons(s.reply, rest.replies);
    }
  }

  /**
   * Ids are handed out consecutively from the counter and never again: the
   * i-th create of a run gets id `t.counter + i`, whatever was deleted between.
   */
  lemma {:induction false} RunIds(t: Table, reqs: seq<Request>)
    requires Consistent(t)
    ensures forall i :: 0 <= i < |CreatedIds(Run(t, reqs).replies)| ==> CreatedIds(Run(t, reqs).replies)[i] == t.counter + i
    decreases |reqs|
  {
    if reqs != [] {
      var s := Step(t, reqs[0]);
      var rest := Run(s.table, reqs[1..]);
      RunCons(t, reqs);
      StepCounter(t, reqs[0]);
      RunIds(s.table, reqs[1..]);
      CreatedIdsCons(s.reply, rest.replies);
    }
  }

  /** The store ends with as many notes as it began with, plus the creates, minus the successful deletes. */
  lemma {:induction false} RunSize(t: Table, reqs: seq<Request>)
    requires Consistent(t)
    ensures |Run(t, reqs).table.notes| + RemovedCount(Run(t, reqs).replies)
         == |t.notes| + |CreatedIds(Run(t, reqs).replies)|
    decreases |reqs|
  {
    if reqs != [] {
      var s := Step(t, reqs[0]);
      var rest := Run(s.table, reqs[1..]);
      RunCons(t, reqs);
      StepSize(t, reqs[0]);
      RunSize(s.table, reqs[1..]);
      CreatedIdsCons(s.reply, rest.replies);
      RemovedCountCons(s.reply, rest.replies);
    }
  }

  /**
   * From the empty store, after any run: the i-th create got id i + 1, and
   * listing returns one note per create that no delete removed.
   */
  lemma FromInitial(reqs: seq<Request>)
    ensures Consistent(Initial)
    ensures CreatedIds(Run(Initial, reqs).replies) == Range(FirstId, Run(Initial, reqs).table.counter)
    ensures |AllNotes(Run(Initial, reqs).table)| + RemovedCount(Run(Initial, reqs).replies)
         == |CreatedIds(Run(Initial, reqs).replies)|
  {
    InitialConsistent();
    RunIds(Initial, reqs);
    RunCounter(Initial, reqs);
    CountingIsRange(CreatedIds(Run(Initial, reqs).replies), FirstId);
    RunSize(Initial, reqs);
  }

  /**
   * An id that was handed out and is no longer stored stays missing: every
   * later get, update or delete on it answers 404.
   */
  lemma {:induction false} GoneStaysGone(t: Table, reqs: seq<Request>, id: int)
    requires Consistent(t)
    requires id < t.counter && id !in t.notes
    ensures id !in Run(t, reqs).table.notes
    ensures forall i :: 0 <= i < |reqs| && Targets(reqs[i], id) ==> IsNotFound(Run(t, reqs).replies[i])
    decreases |reqs|
  {
    if reqs != [] {
      var s := Step(t, reqs[0]);
      RunCons(t, reqs);
      StepKeepsGone(t, reqs[0], id);
      GoneStaysGone(s.table, reqs[1..], id);
      forall i | 0 <= i < |reqs| && Targets(reqs[i], id)
        ensures IsNotFound(Run(t, reqs).replies[i])
      {
        if i > 0 {
          RunTail(t, reqs, i);
        }
      }
    }
  }

  /** Once deleted, a note is gone for good: later get, update and delete on its id answer 404. */
  lemma DeleteIsFinal(t: Table, reqs: seq<Request>, id: int)
    requires Consistent(t)
    requires id in t.notes
    requires |reqs| > 0 && reqs[0] == DeleteNote(id)
    ensures Run(t, reqs).replies[0] == Deleted(Ok(Deletion(DeletedMessage, t.notes[id])))
    ensures forall i :: 1 <= i < |reqs| && Targets(reqs[i], id) ==> IsNotFound(Run(t, reqs).replies[i])
  {
    var t1 := AfterDelete(t, id);
    assert Step(t, reqs[0]) == Transition(t1, Deleted(DeleteReply(t, id)));
    RunCons(t, reqs);
    GoneStaysGone(t1, reqs[1..], id);
    forall i | 1 <= i < |reqs| && Targets(reqs[i], id)
      ensures IsNotFound(Run(t, reqs).replies[i])
    {
      RunTail(t, reqs, i);
    }
  }

  /** A stored note that no request updates or deletes stays as it is, and every get of it returns it. */
  lemma {:induction false} Persists(t: Table, reqs: seq<Request>, id: int)
    requires Consistent(t)
    requires id in t.notes
    requires forall i :: 0 <= i < |reqs| ==> !Touches(reqs[i], id)
    ensures id in Run(t, reqs).table.notes && Run(t, reqs).table.notes[id] == t.notes[id]
    ensures forall i :: 0 <= i < |reqs| && reqs[i] == GetNote(id) ==> Run(t, reqs).replies[i] == Fetched(Ok(t.notes[id]))
    decreases |reqs|
  {
    if reqs != [] {
      var s := Step(t, reqs[0]);
      RunCons(t, reqs);
      assert !Touches(reqs[0], id);
      StepKeeps(t, reqs[0], id);
      forall i | 0 <= i < |reqs| - 1 ensures !Touches(reqs[1..][i], id) {
        assert reqs[1..][i] == reqs[i + 1];
      }
      Persists(s.table, reqs[1..], id);
      forall i | 0 <= i < |reqs| && reqs[i] == GetNote(id)
        ensures Run(t, reqs).replies[i] == Fetched(Ok(t.notes[id]))
      {
        if i > 0 {
          RunTail(t, reqs, i);
        }
      }
    }
  }

  /**
   * Round trip: the note create_note returns is what every later get of its
   * id returns, as long as nothing updates or deletes it.
   */
  lemma CreateGetRoundTrip(t: Table, reqs: seq<Request>, input: NoteCreate)
    requires Consistent(t)
    requires |reqs| > 0 && reqs[0] == CreateNote(input)
    requires forall i :: 1 <= i < |reqs| ==> !Touches(reqs[i], t.counter)
    ensures Run(t, reqs).replies[0] == Created(NewNote(t, input))
    ensures forall i :: 1 <= i < |reqs| && reqs[i] == GetNote(t.counter)
              ==> Run(t, reqs).replies[i] == Fetched(Ok(NewNote(t, input)))
  {
    var t1 := AfterCreate(t, input);
    assert Step(t, reqs[0]) == Transition(t1, Created(NewNote(t, input)));
    RunCons(t, reqs);
    forall i | 0 <= i < |reqs| - 1 ensures !Touches(reqs[1..][i], t.counter) {
      assert reqs[1..][i] == reqs[i + 1];
    }
    Persists(t1, reqs[1..], t.counter);
    forall i | 1 <= i < |reqs| && reqs[i] == GetNote(t.counter)
      ensures Run(t, reqs).replies[i] == Fetched(Ok(NewNote(t, input)))
    {
      RunTail(t, reqs, i);
    }
  }

  // ------------------------------------------------------ the mutable store

  /** The module-level `notes_db` and `note_id_counter`, changed in place by the handlers. */
  class NoteStore {
    var notes: map<int, Note>
    var order: seq<int>
    var counter: int

    function State(): Table
      reads this
    {
      Table(notes, order, counter)
    }

    ghost predicate Valid()
      reads this
    {
      Consistent(State())
    }

    /** The store at start-up: no notes, counter at 1. */
    constructor ()
      ensures Valid()
      ensures State() == Initial
    {
      notes, order, counter := map[], [], FirstId;
    }

    /** create_note: store the note under the current counter value, then advance the counter. */
    method Create(input: NoteCreate) returns (note: Note)
      requires Valid()
      modifies this
      ensures Valid()
      ensures note == Note(old(counter), input.title, input.content)
      ensures notes == old(notes)[note.id := note] && note.id !in old(notes)
      ensures order == old(order) + [note.id]
      ensures counter == old(counter) + 1
      ensures State() == AfterCreate(old(State()), input)
    {
      note := Note(counter, input.title, input.content);
      notes := notes[counter := note];
      order := order + [counter];
      counter := counter + 1;
      assert State() == AfterCreate(old(State()), input);
    }

    /** get_all_notes: the stored notes in insertion order, which is ascending id order. */
    method GetAll() returns (r: seq<Note>)
      requires Valid()
      ensures r == AllNotes(State())
      ensures |r| == |notes|
      ensures forall i :: 0 <= i < |r| ==> r[i].id in notes && notes[r[i].id] == r[i]
      ensures forall k :: k in notes ==> notes[k] in r
      ensures forall i, j :: 0 <= i < j < |r| ==> r[i].id < r[j].id
    {
      OrderListsKeys(State());
      r := ValuesAt(notes, order);
      assert r == AllNotes(State());
    }

    /** get_note: the stored note, or 404 when the id is not a key. */
    method Get(id: int) returns (r: Outcome<Note>)
      requires Valid()
      ensures r.Ok? <==> id in notes
      ensures r.Ok? ==> r.value == notes[id] && r.value.id == id
      ensures r.NotFound? ==> r.id == id
      ensures r == Lookup(State(), id)
    {
      if id !in notes {
        return NotFound(id);
      }
      r := Ok(notes[id]);
    }

    /** update_note: replace the supplied fields of the note at `id`, or 404 and no change. */
    method Update(id: int, patch: NoteUpdate) returns (r: Outcome<Note>)
      requires Valid()
      modifies this
      ensures Valid()
      ensures id !in old(notes) ==> r == NotFound(id) && State() == old(State())
      ensures id in old(notes) ==> r == Ok(Patched(old(notes)[id], patch))
      ensures id in old(notes) ==> notes == old(notes)[id := r.value]
      ensures order == old(order) && counter == old(counter)
      ensures r == UpdateReply(old(State()), id, patch)
      ensures State() == AfterUpdate(old(State()), id, patch)
    {
      if id !in notes {
        return NotFound(id);
      }
      var existing := notes[id];
      var updated := Patched(existing, patch);
      notes := notes[id := updated];
      r := Ok(updated);
    }

    /** delete_note: pop the note at `id` and return it, or 404 and no change. */
    method Delete(id: int) returns (r: Outcome<Deletion>)
      requires Valid()
      modifies this
      ensures Valid()
      ensures id !in old(notes) ==> r == NotFound(id) && State() == old(State())
      ensures id in old(notes) ==> r == Ok(Deletion(DeletedMessage, old(notes)[id]))
      ensures notes == old(notes) - {id}
      ensures order == Without(old(order), id)
      ensures counter == old(counter)
      ensures r == DeleteReply(old(State()), id)
      ensures State() == AfterDelete(old(State()), id)
    {
      if id !in notes {
        return NotFound(id);
      }
      var deleted := notes[id];
      notes := notes - {id};
      order := Without(order, id);
      r := Ok(Deletion(DeletedMessage, deleted));
      assert State() == AfterDelete(old(State()), id);
    }
  }

  /** A client of the store: ids are not reused after a delete, and a deleted note stays missing. */
  method CreateDeleteCreate(a: NoteCreate, b: NoteCreate) returns (first: Note, second: Note, lookup: Outcome<Note>)
    ensures first.id == FirstId && second.id == FirstId + 1
    ensures lookup == NotFound(first.id)
  {
    var store := new NoteStore();
    first := store.Create(a);
    var removed := store.Delete(first.id);
    second := store.Create(b);
    lookup := store.Get(first.id);
  }
}
