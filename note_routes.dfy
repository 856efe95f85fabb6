/**
 * The notes router: the same in-memory dict `notes_db` and counter
 * `note_id_counter`, with create_note stamping each record with the time of
 * creation, and only the handlers create_note, get_all_notes and get_note.
 * There is no update or delete, so the ids in use are exactly those the
 * counter has handed out.
 */
module NoteRoutes {
  import opened Wrappers
  import opened Http
  import opened Seqs
  import opened Schemas

  /** The initial value of `note_id_counter`. */
  const FirstId: int := 1

  /**
   * The state of the router: `notes` is `notes_db` with each stored record
   * given as the `NoteFetch` it is returned as, `order` its keys in insertion
   * order, and `counter` is `note_id_counter`.
   */
  datatype Table = Table(notes: map<int, NoteFetch>, order: seq<int>, counter: int)

  /** The router before any request. */
  const Initial: Table := Table(map[], [], FirstId)

  /**
   * The representation invariant: the keys are exactly the ids handed out so
   * far, in the order they were handed out, each mapped to the record with
   * that id, and every record carries its creation time.
   */
  ghost predicate Consistent(t: Table)
  {
    && FirstId <= t.counter
    && (forall k :: k in t.notes <==> FirstId <= k < t.counter)
    && (forall k :: k in t.notes ==> t.notes[k].id == k && t.notes[k].createdAt.Some?)
    && t.order == Range(FirstId, t.counter)
  }

  lemma InitialConsistent()
    ensures Consistent(Initial)
  {
  }

  // ---------------------------------------------------------------- create

  /** The record create_note builds: the current counter value as id, `now` as creation time. */
  function NewRecord(t: Table, input: NoteCreate, now: DateTime): NoteFetch
  {
    NoteFetch(t.counter, input.title, input.content, Some(now))
  }

  /** The router after create_note: the record is stored under its id and the counter moves on by one. */
  function AfterCreate(t: Table, input: NoteCreate, now: DateTime): (r: Table)
    requires Consistent(t)
    ensures Consistent(r)
    ensures t.counter !in t.notes
    ensures r.notes.Keys == t.notes.Keys + {t.counter}
    ensures r.notes[t.counter] == NewRecord(t, input, now)
    ensures forall k :: k in t.notes ==> r.notes[k] == t.notes[k]
    ensures r.counter == t.counter + 1
  {
    var r := Table(t.notes[t.counter := NewRecord(t, input, now)], t.order + [t.counter], t.counter + 1);
    assert Range(FirstId, t.counter + 1) == Range(FirstId, t.counter) + [t.counter];
    r
  }

  // ------------------------------------------------------------------ list

  /** As many notes are stored as ids were handed out. */
  lemma StoreSize(t: Table)
    requires Consistent(t)
    ensures |t.notes| == t.counter - FirstId
  {
    assert Increasing(t.order);
    IncreasingCard(t.order);
    forall k | k in t.notes ensures k in t.order {
      assert t.order[k - FirstId] == k;
    }
    assert (set y | y in t.order) == t.notes.Keys;
  }

  /** What get_all_notes returns: the records in id order `1, 2, ...`, one per create. */
  function AllNotes(t: Table): (r: seq<NoteFetch>)
    requires Consistent(t)
    ensures |r| == t.counter - FirstId == |t.notes|
    ensures forall i :: 0 <= i < |r| ==> r[i].id == FirstId + i && r[i] == t.notes[FirstId + i]
  {
    StoreSize(t);
    ValuesAt(t.notes, t.order)
  }

  // ------------------------------------------------------------------- get

  /** What get_note answers: the record stored under `id`, or a 404 naming `id`. */
  function Lookup(t: Table, id: int): (r: Outcome<NoteFetch>)
    ensures r.Ok? <==> id in t.notes
    ensures r.Ok? ==> r.value == t.notes[id]
    ensures r.NotFound? ==> r.id == id && r.Detail() == Some(NotFoundDetail(id))
  {
    if id in t.notes then Ok(t.notes[id]) else NotFound(id)
  }

  /** Get finds exactly the ids handed out so far, and returns the stored record. */
  lemma LookupSpec(t: Table, id: int)
    requires Consistent(t)
    ensures Lookup(t, id).Ok? <==> FirstId <= id < t.counter
    ensures Lookup(t, id).Ok? ==> Lookup(t, id).value == t.notes[id] && Lookup(t, id).value.id == id
    ensures Lookup(t, id).NotFound? ==> Lookup(t, id).id == id
  {
  }

  /** Get after create returns the created record, with the submitted fields and its creation time. */
  lemma CreateThenGet(t: Table, input: NoteCreate, now: DateTime)
    requires Consistent(t)
    ensures Lookup(AfterCreate(t, input, now), t.counter) == Ok(NewRecord(t, input, now))
    ensures NewRecord(t, input, now).title == input.title && NewRecord(t, input, now).content == input.content
    ensures NewRecord(t, input, now).createdAt == Some(now)
  {
  }

  // ------------------------------------------------------- runs of requests

  /** A request to one of the three handlers; `now` is what the clock reads when create_note runs. */
  datatype Request =
    | CreateNote(input: NoteCreate, now: DateTime)
    | GetAllNotes
    | GetNote(id: int)

  /** A handler's answer. */
  datatype Reply =
    | Created(note: NoteFetch)
    | Listed(all: seq<NoteFetch>)
    | Fetched(found: Outcome<NoteFetch>)
  {
    /** The status code of the response: 201 for create, 200 for a listing, the outcome's for get. */
    function Status(): int
    {
      match this
      case Created(_) => HTTP_201_CREATED
      case Listed(_) => HTTP_200_OK
      case Fetched(o) => o.Status()
    }
  }

  datatype Transition = Transition(table: Table, reply: Reply)

  /** One request served against the router. */
  function Step(t: Table, req: Request): (r: Transition)
    requires Consistent(t)
    ensures Consistent(r.table)
  {
    match req
    case CreateNote(input, now) => Transition(AfterCreate(t, input, now), Created(NewRecord(t, input, now)))
    case GetAllNotes => Transition(t, Listed(AllNotes(t)))
    case GetNote(id) => Transition(t, Fetched(Lookup(t, id)))
  }

  datatype Trace = Trace(table: Table, replies: seq<Reply>)

  /** Requests served one after another: the final router and one reply per request. */
  function Run(t: Table, reqs: seq<Request>): (r: Trace)
    requires Consistent(t)
    ensures Consistent(r.table)
    ensures |r.replies| == |reqs|
    decreases |reqs|
  {
    if reqs == [] then Trace(t, [])
    else
      var s := Step(t, reqs[0]);
      var rest := Run(s.table, reqs[1..]);
      Trace(rest.table, [s.reply] + rest.replies)
  }

  /** The number of creates among some requests. */
  function Creates(reqs: seq<Request>): nat
  {
    if reqs == [] then 0 else (if reqs[0].CreateNote? then 1 else 0) + Creates(reqs[1..])
  }

  /** The ids of the records created in a run, in order. */
  function CreatedIds(replies: seq<Reply>): seq<int>
  {
    if replies == [] then []
    else (if replies[0].Created? then [replies[0].note.id] else []) + CreatedIds(replies[1..])
  }

  /**
   * The status code of every answer: 201 for a create, 200 for a listing,
   * and for get 200 exactly for the ids handed out so far, else 404 with a
   * detail naming the id.
   */
  lemma StepStatus(t: Table, req: Request)
    requires Consistent(t)
    ensures req.CreateNote? ==> Step(t, req).reply.Status() == HTTP_201_CREATED
    ensures req.GetAllNotes? ==> Step(t, req).reply.Status() == HTTP_200_OK
    ensures req.GetNote? ==> Step(t, req).reply.Status() == if FirstId <= req.id < t.counter then HTTP_200_OK else HTTP_404_NOT_FOUND
    ensures req.GetNote? && req.id !in t.notes ==> Step(t, req).reply.found.Detail() == Some(NotFoundDetail(req.id))
  {
  }

  lemma RunCons(t: Table, reqs: seq<Request>)
    requires Consistent(t)
    requires reqs != []
    ensures Run(t, reqs).table == Run(Step(t, reqs[0]).table, reqs[1..]).table
    ensures Run(t, reqs).replies == [Step(t, reqs[0]).reply] + Run(Step(t, reqs[0]).table, reqs[1..]).replies
  {
  }

  /** One request keeps every stored record as it is. */
  lemma StepKeeps(t: Table, req: Request, id: int)
    requires Consistent(t)
    requires id in t.notes
    ensures id in Step(t, req).table.notes && Step(t, req).table.notes[id] == t.notes[id]
  {
  }

  /** The i-th reply of a run, for i > 0, is a reply of the run of the remaining requests. */
  lemma RunTail(t: Table, reqs: seq<Request>, i: int)
    requires Consistent(t)
    requires 1 <= i < |reqs|
    ensures reqs[1..][i - 1] == reqs[i]
    ensures Run(t, reqs).replies[i] == Run(Step(t, reqs[0]).table, reqs[1..]).replies[i - 1]
  {
    var s := Step(t, reqs[0]);
    RunCons(t, reqs);
    ConsIndex(s.reply, Run(s.table, reqs[1..]).replies, i);
  }

  /** A stored record never changes: the router has no update and no delete. */
  lemma {:induction false} RecordsAreFixed(t: Table, reqs: seq<Request>, id: int)
    requires Consistent(t)
    requires id in t.notes
    ensures id in Run(t, reqs).table.notes && Run(t, reqs).table.notes[id] == t.notes[id]
    decreases |reqs|
  {
    if reqs != [] {
      var s := Step(t, reqs[0]);
      RunCons(t, reqs);
      StepKeeps(t, reqs[0], id);
      RecordsAreFixed(s.table, reqs[1..], id);
    }
  }

  /** The counter advances by one per create, and by nothing else. */
  lemma {:induction false} RunCounter(t: Table, reqs: seq<Request>)
    requires Consistent(t)
    ensures Run(t, reqs).table.counter == t.counter + Creates(reqs)
    decreases |reqs|
  {
    if reqs != [] {
      var s := Step(t, reqs[0]);
      RunCons(t, reqs);
      RunCounter(s.table, reqs[1..]);
    }
  }

  lemma CreatedIdsCons(rep: Reply, replies: seq<Reply>)
    ensures CreatedIds([rep] + replies) == (if rep.Created? then [rep.note.id] else []) + CreatedIds(replies)
  {
    assert ([rep] + replies)[1..] == replies;
  }

  /**
   * Successive creates get strictly increasing ids, one after another: the
   * creates of a run get exactly the ids from the counter at its start up to
   * the counter at its end, in that order.
   */
  lemma {:induction false} RunIds(t: Table, reqs: seq<Request>)
    requires Consistent(t)
    ensures CreatedIds(Run(t, reqs).replies) == Range(t.counter, Run(t, reqs).table.counter)
    decreases |reqs|
  {
    if reqs != [] {
      var s := Step(t, reqs[0]);
      var rest := Run(s.table, reqs[1..]);
      RunCons(t, reqs);
      RunIds(s.table, reqs[1..]);
      RunCounter(s.table, reqs[1..]);
      CreatedIdsCons(s.reply, rest.replies);
    }
  }

  /**
   * From the empty router, after any run: the creates got ids `1, 2, ..., N`,
   * and listing returns one record per create, with those ids in that order.
   */
  lemma FromInitial(reqs: seq<Request>)
    ensures Consistent(Initial)
    ensures CreatedIds(Run(Initial, reqs).replies) == Range(FirstId, FirstId + Creates(reqs))
    ensures |AllNotes(Run(Initial, reqs).table)| == Creates(reqs)
    ensures forall i :: 0 <= i < Creates(reqs) ==> AllNotes(Run(Initial, reqs).table)[i].id == FirstId + i
  {
    InitialConsistent();
    RunCounter(Initial, reqs);
    RunIds(Initial, reqs);
  }

  /**
   * Round trip: the record create_note returns is what every later get of
   * its id returns, creation time included.
   */
  lemma CreateGetRoundTrip(t: Table, reqs: seq<Request>, input: NoteCreate, now: DateTime)
    requires Consistent(t)
    requires |reqs| > 0 && reqs[0] == CreateNote(input, now)
    ensures Run(t, reqs).replies[0] == Created(NewRecord(t, input, now))
    ensures forall i :: 1 <= i < |reqs| && reqs[i] == GetNote(t.counter)
              ==> Run(t, reqs).replies[i] == Fetched(Ok(NewRecord(t, input, now)))
  {
    var t1 := AfterCreate(t, input, now);
    assert Step(t, reqs[0]) == Transition(t1, Created(NewRecord(t, input, now)));
    RunCons(t, reqs);
    forall i | 1 <= i < |reqs| && reqs[i] == GetNote(t.counter)
      ensures Run(t, reqs).replies[i] == Fetched(Ok(NewRecord(t, input, now)))
    {
      RunTail(t, reqs, i);
      GetAfter(t1, reqs[1..], i - 1, t.counter);
    }
  }

  /** A get in the middle of a run answers from the router as it stood then, in which the record is unchanged. */
  lemma {:induction false} GetAfter(t: Table, reqs: seq<Request>, i: nat, id: int)
    requires Consistent(t)
    requires id in t.notes
    requires i < |reqs| && reqs[i] == GetNote(id)
    ensures Run(t, reqs).replies[i] == Fetched(Ok(t.notes[id]))
    decreases i
  {
    var s := Step(t, reqs[0]);
    RunCons(t, reqs);
    if i > 0 {
      StepKeeps(t, reqs[0], id);
      RunTail(t, reqs, i);
      GetAfter(s.table, reqs[1..], i - 1, id);
    }
  }

  // ------------------------------------------------------ the mutable store

  /** The module-level `notes_db` and `note_id_counter` of the router. */
  class NoteStore {
    var notes: map<int, NoteFetch>
    var order: seq<int>
    var counter: int

    function State(): Table
      reads this
    {
      Table(notes, order, counter)
    }

    ghost predicate Valid()
      reads this
    {
      Consistent(State())
    }

    /** The router at start-up: no notes, counter at 1. */
    constructor ()
      ensures Valid()
      ensures State() == Initial
    {
      notes, order, counter := map[], [], FirstId;
    }

    /** create_note: store the record, stamped with `now`, under the current counter value, then advance the counter. */
    method Create(input: NoteCreate, now: DateTime) returns (note: NoteFetch)
      requires Valid()
      modifies this
      ensures Valid()
      ensures note == NoteFetch(old(counter), input.title, input.content, Some(now))
      ensures notes == old(notes)[note.id := note] && note.id !in old(notes)
      ensures order == old(order) + [note.id]
      ensures counter == old(counter) + 1
      ensures State() == AfterCreate(old(State()), input, now)
    {
      note := NoteFetch(counter, input.title, input.content, Some(now));
      notes := notes[counter := note];
      order := order + [counter];
      counter := counter + 1;
      assert State() == AfterCreate(old(State()), input, now);
    }

    /** get_all_notes: the stored records in id order, empty when nothing was created. */
    method GetAll() returns (r: seq<NoteFetch>)
      requires Valid()
      ensures r == AllNotes(State())
      ensures |r| == |notes| == counter - FirstId
      ensures forall i :: 0 <= i < |r| ==> r[i].id == FirstId + i && r[i] == notes[FirstId + i]
      ensures notes == map[] ==> r == []
    {
      r := ValuesAt(notes, order);
      assert r == AllNotes(State());
    }

    /** get_note: the stored record, or 404 when the id is not a key. */
    method Get(id: int) returns (r: Outcome<NoteFetch>)
      requires Valid()
      ensures r.Ok? <==> FirstId <= id < counter
      ensures r.Ok? ==> r.value == notes[id] && r.value.id == id && r.value.createdAt.Some?
      ensures r.NotFound? ==> r.id == id
      ensures r == Lookup(State(), id)
    {
      if id !in notes {
        return NotFound(id);
      }
      r := Ok(notes[id]);
    }
  }

  /** A client of the router: successive creates get ids 1 and 2, and both can be fetched. */
  method CreateTwice(a: NoteCreate, b: NoteCreate, t1: DateTime, t2: DateTime)
    returns (first: NoteFetch, second: NoteFetch, all: seq<NoteFetch>)
    ensures first.id == FirstId && second.id == FirstId + 1
    ensures first.createdAt == Some(t1) && second.createdAt == Some(t2)
    ensures all == [first, second]
  {
    var store := new NoteStore();
    first := store.Create(a, t1);
    second := store.Create(b, t2);
    all := store.GetAll();
  }
}
