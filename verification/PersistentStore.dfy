/** Write-behind persistence of the latest values: a state machine whose steps are the
    atomic actions of producers, of the flush loop and of the database, deletions of tags included. */
module PersistentStore {
  import opened Identifiers
  import opened TagValues
  import V = ValueStore
  import M = MemoryValueStore
  import opened Runs

  const MAX_SEQUENCE := 0x7FFF_FFFF_FFFF_FFFF

  /** `inFlight` is what the current flush has yet to write; `failed` is a value whose
      write failed and that is about to be put back. */
  datatype State = State(
    memory: V.Store,
    pending: map<Uuid, TagValue>,
    inFlight: seq<TagValue>,
    failed: Option<TagValue>,
    database: V.Latest,
    deleted: set<Uuid>,
    started: bool,
    stopped: bool
  ) {
    /** Everything taken from pending and not yet written. */
    function Flight(): seq<TagValue> {
      if failed.Some? then [failed.value] + inFlight else inFlight
    }

    predicate Flying(id: Uuid) {
      exists v :: v in Flight() && v.tagId == id
    }
  }

  // ---------------------------------------------------------------- the table

  /** The table's checks: a positive sequence that fits, unique over all tags. */
  predicate Accepts(database: V.Latest, value: TagValue) {
    && 0 < value.sequence <= MAX_SEQUENCE && value.storedAt != 0
    && forall id :: id in database && id != value.tagId ==> database[id].sequence != value.sequence
  }

  /** A value that the table takes: it passes the checks, and its tag exists. */
  predicate Lands(database: V.Latest, deleted: set<Uuid>, value: TagValue) {
    value.tagId !in deleted && Accepts(database, value)
  }

  /** Insert, or overwrite an older row; a newer row stays. */
  function Upserted(database: V.Latest, value: TagValue): V.Latest {
    if value.tagId in database && database[value.tagId].sequence >= value.sequence then database
    else database[value.tagId := value]
  }

  /** Rows whose tag still has the row's data type; only these are loaded at a start. */
  function Visible(database: V.Latest, types: map<Uuid, DataType>): V.Latest {
    map id | id in database && id in types && types[id] == database[id].dataType :: database[id]
  }

  // ---------------------------------------------------------------- steps

  datatype Step =
    | Put(value: TagValue, now: nat)
    | TakePending(order: seq<TagValue>)
    | WriteSucceeds
    | WriteFails(applied: bool)
    | Requeue
    | Stop
    | DeleteTag(id: Uuid)
    | Restart(types: map<Uuid, DataType>, rows: seq<TagValue>)

  ghost predicate Enabled(s: State, step: Step) {
    match step
    case Put(_, _) => s.started && !s.stopped
    case TakePending(order) => s.Flight() == [] && Lists(order, s.pending)
    case WriteSucceeds => s.failed.None? && s.inFlight != [] && Lands(s.database, s.deleted, s.inFlight[0])
    case WriteFails(applied) =>
      s.failed.None? && s.inFlight != [] && (applied ==> Lands(s.database, s.deleted, s.inFlight[0]))
    case Requeue => s.failed.Some?
    case Stop => true
    case DeleteTag(_) => true
    case Restart(types, rows) => Lists(rows, Visible(s.database, types)) && forall v :: v in rows ==> M.Restorable(v)
  }

  /** The values of a map, each once, by sequence. */
  ghost predicate Lists(order: seq<TagValue>, values: map<Uuid, TagValue>) {
    && V.Increasing(order)
    && (forall v :: v in order ==> v.tagId in values && values[v.tagId] == v)
    && (forall id :: id in values ==> values[id] in order)
  }

  function PutBack(pending: map<Uuid, TagValue>, value: TagValue): map<Uuid, TagValue> {
    if value.tagId !in pending || pending[value.tagId].sequence < value.sequence
    then pending[value.tagId := value] else pending
  }

  function Perform(s: State, step: Step): State
    requires Enabled(s, step)
  {
    match step
    case Put(value, now) =>
      var memory := V.Put(s.memory, value, now);
      var stored := V.StoredByStep(s.memory, V.PutStep(value, now));
      s.(memory := memory, pending := if stored == [] then s.pending else s.pending[stored[0].tagId := stored[0]])
    case TakePending(order) => s.(pending := map[], inFlight := order)
    case WriteSucceeds => s.(inFlight := s.inFlight[1..], database := Upserted(s.database, s.inFlight[0]))
    case WriteFails(applied) =>
      s.(inFlight := s.inFlight[1..], failed := Some(s.inFlight[0]),
         database := if applied then Upserted(s.database, s.inFlight[0]) else s.database)
    case Requeue => s.(failed := None, pending := PutBack(s.pending, s.failed.value))
    case Stop => s.(stopped := true)
    case DeleteTag(id) => s.(deleted := s.deleted + {id}, database := s.database - {id})
    case Restart(_, rows) => State(M.Restoration(rows), map[], [], None, s.database, s.deleted, true, false)
  }

  // ---------------------------------------------------------------- the invariant

  /** A value as the store numbers and stamps it. */
  ghost predicate WellStored(v: TagValue) {
    Normalize(v) == Some(v) && v.sequence > 0
  }

  ghost predicate MemoryOk(s: State) {
    && V.Numbered(s.memory)
    && forall id :: id in s.memory.latest ==> WellStored(s.memory.latest[id])
  }

  /** Nothing newer than memory is pending, in flight or written, and equal sequences mean
      equal values. */
  ghost predicate NotAhead(s: State, v: TagValue) {
    && v.tagId in s.memory.latest
    && v.sequence <= s.memory.latest[v.tagId].sequence
    && (v.sequence == s.memory.latest[v.tagId].sequence ==> v == s.memory.latest[v.tagId])
  }

  /** A row as the table's own checks keep it. */
  ghost predicate RowStored(id: Uuid, row: TagValue) {
    row.tagId == id && WellStored(row) && row.storedAt != 0 && row.sequence <= MAX_SEQUENCE
  }

  /** The table, whatever was in memory when its rows were written. */
  ghost predicate TableStored(database: V.Latest, deleted: set<Uuid>) {
    && (forall id :: id in database ==> RowStored(id, database[id]))
    && UniqueSequences(database) && database.Keys !! deleted
  }

  /** A row is not ahead of memory, nor of the numbering when memory has no such tag. */
  ghost predicate RowOk(s: State, id: Uuid, row: TagValue) {
    && RowStored(id, row)
    && (if id in s.memory.latest then NotAhead(s, row) else row.sequence <= s.memory.sequence)
  }

  ghost predicate TableOk(s: State) {
    && (forall id :: id in s.database ==> RowOk(s, id, s.database[id]))
    && UniqueSequences(s.database) && s.database.Keys !! s.deleted
  }

  ghost predicate UniqueSequences(database: V.Latest) {
    forall a, b :: a in database && b in database && a != b ==> database[a].sequence != database[b].sequence
  }

  /** A value in flight is not ahead of memory, and current unless its tag is pending. */
  ghost predicate FlightOk(s: State, v: TagValue) {
    NotAhead(s, v) && WellStored(v) && (v.tagId !in s.pending ==> v == s.memory.latest[v.tagId])
  }

  /** The latest value of the tag is the pending one, else the one in flight, else the row
      in the table, which a deleted tag does not have. */
  ghost predicate TagAgrees(s: State, id: Uuid) {
    && (id in s.pending ==> id in s.memory.latest && s.pending[id] == s.memory.latest[id])
    && (id in s.memory.latest && id !in s.deleted && id !in s.pending && !s.Flying(id) ==>
          id in s.database && s.database[id] == s.memory.latest[id])
  }

  ghost predicate Agrees(s: State) {
    && (forall v :: v in s.Flight() ==> FlightOk(s, v))
    && (forall id :: TagAgrees(s, id))
  }

  ghost predicate Invariant(s: State) {
    MemoryOk(s) && TableOk(s) && Agrees(s)
  }

  // ---------------------------------------------------------------- every step keeps it

  lemma PutKeepsAgreement(s: State, t: State, stored: TagValue)
    requires Invariant(s)
    requires t.memory.latest == s.memory.latest[stored.tagId := stored]
    requires stored.sequence == t.memory.sequence == s.memory.sequence + 1
    requires t == s.(memory := t.memory, pending := s.pending[stored.tagId := stored])
    ensures TableOk(t) && Agrees(t)
  {
    forall id | id in s.database ensures RowOk(t, id, t.database[id]) {
      assert RowOk(s, id, s.database[id]);
    }
    forall v | v in t.Flight() ensures FlightOk(t, v) {
      assert FlightOk(s, v);
    }
    forall id ensures TagAgrees(t, id) {
      assert TagAgrees(s, id);
      assert t.Flying(id) == s.Flying(id);
    }
  }

  lemma PutKeepsInvariant(s: State, value: TagValue, now: nat)
    requires Invariant(s) && Enabled(s, Put(value, now))
    ensures Invariant(Perform(s, Put(value, now)))
  {
    var t := Perform(s, Put(value, now));
    V.StepKeepsNumbering(s.memory, V.PutStep(value, now));
    if Normalize(value).Some? {
      NormalizeIsIdempotent(value, s.memory.sequence + 1, now);
      PutKeepsAgreement(s, t, V.Stamped(s.memory, Normalize(value).value, now));
    } else {
      assert t == s;
    }
  }

  lemma TakeKeepsInvariant(s: State, order: seq<TagValue>)
    requires Invariant(s) && Enabled(s, TakePending(order))
    ensures Invariant(Perform(s, TakePending(order)))
  {
    var t := Perform(s, TakePending(order));
    assert t.Flight() == order;
    forall id ensures TagAgrees(t, id) {
      assert TagAgrees(s, id);
      assert id in s.pending ==> s.pending[id] in t.Flight();
    }
    forall v | v in t.Flight() ensures FlightOk(t, v) {
      assert TagAgrees(s, v.tagId);
    }
    forall id | id in s.database ensures RowOk(t, id, t.database[id]) {
      assert RowOk(s, id, s.database[id]);
    }
  }

  lemma UpsertKeepsTable(s: State, v: TagValue, t: State)
    requires TableOk(s) && NotAhead(s, v) && WellStored(v) && Lands(s.database, s.deleted, v)
    requires t.memory == s.memory && t.deleted == s.deleted && t.database == Upserted(s.database, v)
    ensures TableOk(t)
  {
    forall id | id in t.database ensures RowOk(t, id, t.database[id]) {
      if id in s.database {
        assert RowOk(s, id, s.database[id]);
      }
    }
  }

  /** After an accepted write the row of a current value is that value. */
  lemma UpsertWritesCurrent(s: State, v: TagValue)
    requires TableOk(s) && NotAhead(s, v) && v == s.memory.latest[v.tagId]
    ensures Upserted(s.database, v)[v.tagId] == v
  {
    if v.tagId in s.database {
      assert RowOk(s, v.tagId, s.database[v.tagId]);
    }
  }

  lemma SameTable(s: State, t: State)
    requires TableOk(s) && t.memory == s.memory && t.database == s.database && t.deleted == s.deleted
    ensures TableOk(t)
  {
    forall id | id in t.database ensures RowOk(t, id, t.database[id]) {
      assert RowOk(s, id, s.database[id]);
    }
  }

  lemma WriteKeepsTable(s: State, step: Step)
    requires Invariant(s) && Enabled(s, step) && (step.WriteSucceeds? || step.WriteFails?)
    ensures TableOk(Perform(s, step))
  {
    var t, v := Perform(s, step), s.inFlight[0];
    assert v in s.Flight() && FlightOk(s, v);
    if t.database != s.database {
      UpsertKeepsTable(s, v, t);
    } else {
      SameTable(s, t);
    }
  }

  /** A write takes the first value out of flight, or leaves it there as failed. */
  lemma WriteKeepsInvariant(s: State, step: Step)
    requires Invariant(s) && Enabled(s, step) && (step.WriteSucceeds? || step.WriteFails?)
    ensures Invariant(Perform(s, step))
  {
    var t, v := Perform(s, step), s.inFlight[0];
    WriteKeepsTable(s, step);
    WriteFlight(s, step);
    forall w | w in t.Flight() ensures FlightOk(t, w) {
      assert w in s.Flight() && FlightOk(s, w);
    }
    forall id ensures TagAgrees(t, id) {
      assert TagAgrees(s, id) && FlightOk(s, v);
      if step.WriteSucceeds? {
        SuccessKeepsTag(s, id);
      } else {
        FailureKeepsTag(s, step.applied, id);
      }
    }
  }

  lemma WriteFlight(s: State, step: Step)
    requires Enabled(s, step) && (step.WriteSucceeds? || step.WriteFails?)
    ensures var t := Perform(s, step);
            && s.Flight() == (if step.WriteSucceeds? then [s.inFlight[0]] else []) + t.Flight()
            && s.inFlight[0] in s.Flight()
  {
  }

  lemma SuccessKeepsTag(s: State, id: Uuid)
    requires TableOk(s) && Enabled(s, WriteSucceeds) && TagAgrees(s, id) && FlightOk(s, s.inFlight[0])
    ensures TagAgrees(Perform(s, WriteSucceeds), id)
  {
    var t, v := Perform(s, WriteSucceeds), s.inFlight[0];
    WriteFlight(s, WriteSucceeds);
    if id != v.tagId {
      TailFlies(s, t, v, id);
    } else if id !in s.pending {
      UpsertWritesCurrent(s, v);
    }
  }

  lemma FailureKeepsTag(s: State, applied: bool, id: Uuid)
    requires Enabled(s, WriteFails(applied)) && TagAgrees(s, id)
    ensures TagAgrees(Perform(s, WriteFails(applied)), id)
  {
    var t, v := Perform(s, WriteFails(applied)), s.inFlight[0];
    WriteFlight(s, WriteFails(applied));
    assert [] + t.Flight() == t.Flight();
    assert id == v.tagId ==> t.Flying(id);
    assert s.Flying(id) == t.Flying(id);
  }

  /** Once a value has left, the others still fly. */
  lemma TailFlies(s: State, t: State, v: TagValue, id: Uuid)
    requires s.Flight() == [v] + t.Flight() && v.tagId != id
    ensures s.Flying(id) <==> t.Flying(id)
  {
    assert forall w :: w in s.Flight() <==> w == v || w in t.Flight();
  }

  lemma RequeueKeepsInvariant(s: State)
    requires Invariant(s) && Enabled(s, Requeue)
    ensures Invariant(Perform(s, Requeue))
  {
    var t, v := Perform(s, Requeue), s.failed.value;
    assert s.Flight() == [v] + t.Flight();
    SameTable(s, t);
    assert v in s.Flight() && FlightOk(s, v) && TagAgrees(s, v.tagId);
    forall w | w in t.Flight() ensures FlightOk(t, w) {
      assert w in s.Flight() && FlightOk(s, w);
      RequeueKeepsFlight(s, w);
    }
    forall id ensures TagAgrees(t, id) {
      assert TagAgrees(s, id);
      RequeueKeepsTag(s, id);
    }
  }

  lemma RequeueKeepsFlight(s: State, w: TagValue)
    requires Enabled(s, Requeue) && FlightOk(s, w) && FlightOk(s, s.failed.value)
    ensures FlightOk(Perform(s, Requeue), w)
  {
  }

  lemma RequeueKeepsTag(s: State, id: Uuid)
    requires Enabled(s, Requeue) && TagAgrees(s, id) && FlightOk(s, s.failed.value)
    ensures TagAgrees(Perform(s, Requeue), id)
  {
    var t, v := Perform(s, Requeue), s.failed.value;
    assert s.Flight() == [v] + t.Flight();
    if id != v.tagId {
      TailFlies(s, t, v, id);
    }
  }

  // ---------------------------------------------------------------- restarts

  /** No row that a restart leaves out is numbered above every row it loads. */
  ghost predicate NoHiddenAhead(database: V.Latest, types: map<Uuid, DataType>) {
    forall id :: id in database && id !in Visible(database, types) ==>
      exists w :: w in Visible(database, types) && database[w].sequence >= database[id].sequence
  }

  lemma {:induction false} RestorationSequence(rows: seq<TagValue>)
    requires forall v :: v in rows ==> M.Restorable(v)
    ensures M.Restoration(rows).sequence == 0
            || exists i :: 0 <= i < |rows| && rows[i].sequence == M.Restoration(rows).sequence
  {
    if rows != [] {
      var front, last := rows[..|rows| - 1], rows[|rows| - 1];
      RestorationSequence(front);
      assert M.Restorable(last);
      if last.sequence <= M.Restoration(front).sequence && M.Restoration(front).sequence != 0 {
        var i :| 0 <= i < |front| && front[i].sequence == M.Restoration(front).sequence;
        assert rows[i] == front[i];
      } else {
        assert rows[|front|].sequence == M.Restoration(rows).sequence;
      }
    }
  }

  lemma RowsAreDistinct(s: State, types: map<Uuid, DataType>, rows: seq<TagValue>)
    requires TableStored(s.database, s.deleted) && Enabled(s, Restart(types, rows))
    ensures M.AllRestorable(rows)
    ensures forall i, j :: 0 <= i < j < |rows| ==> rows[i].sequence != rows[j].sequence
  {
    forall i, j | 0 <= i < j < |rows|
      ensures rows[i].sequence != rows[j].sequence && M.TagIds(rows)[i] != M.TagIds(rows)[j] {
      assert rows[i] in rows && rows[j] in rows;
    }
  }

  /** A restart loads exactly the visible rows. */
  lemma RestartLoadsVisible(s: State, types: map<Uuid, DataType>, rows: seq<TagValue>)
    requires TableStored(s.database, s.deleted) && Enabled(s, Restart(types, rows))
    ensures MemoryOk(Perform(s, Restart(types, rows)))
    ensures Perform(s, Restart(types, rows)).memory.latest == Visible(s.database, types)
    ensures var latest := Perform(s, Restart(types, rows)).memory.latest;
            && (forall id :: id in latest <==> id in s.database && id in types && types[id] == s.database[id].dataType)
            && (forall id :: id in latest ==> latest[id] == s.database[id])
  {
    RowsAreDistinct(s, types, rows);
    M.RestorationIsNumbered(rows);
    forall id | id in Visible(s.database, types) ensures RowStored(id, Visible(s.database, types)[id]) {
      assert RowStored(id, s.database[id]);
    }
    FiledIsVisible(Visible(s.database, types), rows, M.Restoration(rows));
  }

  lemma FiledIsVisible(visible: V.Latest, rows: seq<TagValue>, memory: V.Store)
    requires Lists(rows, visible) && M.FilesAll(memory, rows)
    requires forall id :: id in visible ==> RowStored(id, visible[id])
    ensures memory.latest == visible
  {
    forall id | id in visible ensures id in memory.latest && memory.latest[id] == visible[id] {
      RowIsFiled(visible, id, rows, memory);
    }
    forall id | id in memory.latest ensures id in visible {
      FiledIsRow(visible, id, rows, memory);
    }
  }

  lemma FiledIsRow(visible: V.Latest, id: Uuid, rows: seq<TagValue>, memory: V.Store)
    requires Lists(rows, visible) && M.FilesAll(memory, rows) && id in memory.latest
    ensures id in visible
  {
    assert M.Listed(rows, id, memory.latest[id].sequence);
    var i :| 0 <= i < |rows| && rows[i].tagId == id;
    assert rows[i] in rows;
  }

  lemma RowIsFiled(visible: V.Latest, id: Uuid, rows: seq<TagValue>, memory: V.Store)
    requires id in visible && RowStored(id, visible[id]) && visible[id] in rows && M.FilesAll(memory, rows)
    ensures id in memory.latest && memory.latest[id] == visible[id]
  {
    var i :| 0 <= i < |rows| && rows[i] == visible[id];
    assert M.Files(memory, rows[i]);
  }

  /** A restart needs nothing of the memory that it leaves behind. */
  lemma RestartGivesInvariant(s: State, types: map<Uuid, DataType>, rows: seq<TagValue>)
    requires TableStored(s.database, s.deleted) && Enabled(s, Restart(types, rows)) && NoHiddenAhead(s.database, types)
    ensures Invariant(Perform(s, Restart(types, rows)))
  {
    var t, visible := Perform(s, Restart(types, rows)), Visible(s.database, types);
    RestartLoadsVisible(s, types, rows);
    forall id | id in t.database ensures RowOk(t, id, t.database[id]) {
      assert RowStored(id, s.database[id]);
      if id !in visible {
        var w :| w in visible && s.database[w].sequence >= s.database[id].sequence;
        assert t.memory.latest[w].sequence <= t.memory.sequence;
      }
    }
    forall id ensures TagAgrees(t, id) {
      assert id in visible ==> visible[id] == s.database[id];
    }
  }

  // ---------------------------------------------------------------- runs

  /** One step of a run; a restart happens only when no hidden row is ahead. */
  ghost predicate Next(s: State, t: State) {
    exists step :: Takes(s, step, t)
  }

  ghost predicate Takes(s: State, step: Step, t: State) {
    Enabled(s, step) && t == Perform(s, step) && (step.Restart? ==> NoHiddenAhead(s.database, step.types))
  }

  lemma StepKeepsInvariant(s: State, step: Step)
    requires Invariant(s) && Enabled(s, step) && (step.Restart? ==> NoHiddenAhead(s.database, step.types))
    ensures Invariant(Perform(s, step))
  {
    match step
    case Put(value, now) => PutKeepsInvariant(s, value, now);
    case TakePending(order) => TakeKeepsInvariant(s, order);
    case WriteSucceeds => WriteKeepsInvariant(s, step);
    case WriteFails(_) => WriteKeepsInvariant(s, step);
    case Requeue => RequeueKeepsInvariant(s);
    case Stop => StopKeepsInvariant(s);
    case DeleteTag(id) => DeleteKeepsInvariant(s, id);
    case Restart(types, rows) =>
      InvariantTableIsStored(s);
      RestartGivesInvariant(s, types, rows);
  }

  lemma InvariantTableIsStored(s: State)
    requires TableOk(s)
    ensures TableStored(s.database, s.deleted)
  {
    forall id | id in s.database ensures RowStored(id, s.database[id]) {
      assert RowOk(s, id, s.database[id]);
    }
  }

  lemma StopKeepsInvariant(s: State)
    requires Invariant(s)
    ensures Invariant(Perform(s, Stop))
  {
    var t := Perform(s, Stop);
    SameTable(s, t);
    assert t.Flight() == s.Flight();
    forall v | v in t.Flight() ensures FlightOk(t, v) {
      assert FlightOk(s, v);
    }
    forall id ensures TagAgrees(t, id) {
      assert TagAgrees(s, id);
    }
  }

  lemma DeleteKeepsInvariant(s: State, id: Uuid)
    requires Invariant(s)
    ensures Invariant(Perform(s, DeleteTag(id)))
  {
    var t := Perform(s, DeleteTag(id));
    assert t.Flight() == s.Flight();
    forall k | k in t.database ensures RowOk(t, k, t.database[k]) {
      assert RowOk(s, k, s.database[k]);
    }
    forall v | v in t.Flight() ensures FlightOk(t, v) {
      assert FlightOk(s, v);
    }
    forall k ensures TagAgrees(t, k) {
      assert TagAgrees(s, k);
    }
  }

  /** Rows are lost only with their tags, and their sequences never decrease. */
  ghost predicate RowsGrow(before: V.Latest, after: V.Latest, deleted: set<Uuid>) {
    forall id :: id in before && id !in deleted ==> id in after && before[id].sequence <= after[id].sequence
  }

  /** A write loses no row at all. */
  lemma WriteGrowsRows(s: State, step: Step)
    requires Enabled(s, step) && (step.WriteSucceeds? || step.WriteFails?)
    ensures RowsGrow(s.database, Perform(s, step).database, {})
  {
  }

  lemma StepGrowsRows(s: State, step: Step)
    requires Enabled(s, step)
    ensures TableGrows(s, Perform(s, step))
  {
  }

  lemma NextGrowsRows(s: State, t: State)
    requires Next(s, t)
    ensures TableGrows(s, t)
  {
    var step :| Takes(s, step, t);
    StepGrowsRows(s, step);
  }

  lemma RowsGrowOn(a: V.Latest, b: V.Latest, c: V.Latest, d: set<Uuid>, e: set<Uuid>)
    requires RowsGrow(a, b, d) && RowsGrow(b, c, e) && d <= e
    ensures RowsGrow(a, c, e)
  {
  }

  lemma NextKeepsInvariant(s: State, t: State)
    requires Invariant(s) && Next(s, t)
    ensures Invariant(t)
  {
    var step :| Takes(s, step, t);
    StepKeepsInvariant(s, step);
  }

  /** In every interleaving of producers, flushes, failing writes and restarts, each tag's
      latest value is the pending one, else the one in flight, else its row. */
  lemma RunKeepsInvariant(run: seq<State>, n: nat)
    requires Run(run, Next) && Invariant(run[0]) && n < |run|
    ensures Invariant(run[n])
  {
    forall s, t | Invariant(s) && Next(s, t) ensures Invariant(t) {
      NextKeepsInvariant(s, t);
    }
    Preserved(run, Next, Invariant, n);
  }

  /** Before its first start a store holds nothing in memory, whatever the table holds. */
  ghost predicate Cold(s: State) {
    && !s.started && s.memory == V.EMPTY && s.pending == map[] && s.inFlight == [] && s.failed == None
    && TableStored(s.database, s.deleted)
  }

  lemma ColdStep(s: State, step: Step)
    requires Cold(s) && Enabled(s, step) && (step.Restart? ==> NoHiddenAhead(s.database, step.types))
    ensures Cold(Perform(s, step)) || Invariant(Perform(s, step))
  {
    match step
    case Restart(types, rows) => RestartGivesInvariant(s, types, rows);
    case TakePending(order) => ListsNothing(order);
    case _ =>
  }

  lemma ListsNothing(order: seq<TagValue>)
    requires Lists(order, map[])
    ensures order == []
  {
    HeadIsListed(order);
  }

  lemma HeadIsListed(order: seq<TagValue>)
    ensures order != [] ==> order[0] in order
  {
  }

  ghost predicate ColdOrInvariant(s: State) {
    Cold(s) || Invariant(s)
  }

  lemma NextFromCold(s: State, t: State)
    requires ColdOrInvariant(s) && Next(s, t)
    ensures ColdOrInvariant(t)
  {
    if Cold(s) {
      var step :| Takes(s, step, t);
      ColdStep(s, step);
    } else {
      NextKeepsInvariant(s, t);
    }
  }

  /** Over every run of a new store over any table: nothing happens before the first start,
      and the agreement holds from then on. */
  lemma RunFromColdAgrees(run: seq<State>, n: nat)
    requires Run(run, Next) && Cold(run[0]) && n < |run|
    ensures Cold(run[n]) || Invariant(run[n])
  {
    forall s, t | ColdOrInvariant(s) && Next(s, t) ensures ColdOrInvariant(t) {
      NextFromCold(s, t);
    }
    Preserved(run, Next, ColdOrInvariant, n);
  }

  /** Over every run, rows are lost only with their tags and their sequences never decrease. */
  lemma RunGrowsRows(run: seq<State>, m: nat, n: nat)
    requires Run(run, Next) && m <= n < |run|
    ensures RowsGrow(run[m].database, run[n].database, run[n].deleted)
  {
    forall s, t | Next(s, t) ensures TableGrows(s, t) {
      NextGrowsRows(s, t);
    }
    forall s, t, u | TableGrows(s, t) && TableGrows(t, u) ensures TableGrows(s, u) {
      RowsGrowOn(s.database, t.database, u.database, t.deleted, u.deleted);
    }
    Spanned(run, Next, TableGrows, m, n);
  }

  ghost predicate TableGrows(s: State, t: State) {
    s.deleted <= t.deleted && RowsGrow(s.database, t.database, t.deleted)
  }

  /** With nothing pending or in flight the table holds the latest values. */
  lemma TableHoldsLatest(s: State)
    requires Agrees(s) && s.pending == map[] && s.Flight() == []
    ensures forall id :: id in s.memory.latest && id !in s.deleted ==>
              id in s.database && s.database[id] == s.memory.latest[id]
  {
    forall id | id in s.memory.latest && id !in s.deleted
      ensures id in s.database && s.database[id] == s.memory.latest[id]
    {
      assert TagAgrees(s, id);
    }
  }

  /** Once nothing is pending or in flight, the table holds memory, and a restart that
      sees those rows restores the same latest values. */
  lemma QuietRestart(s: State, types: map<Uuid, DataType>, rows: seq<TagValue>)
    requires Invariant(s) && s.pending == map[] && s.Flight() == []
    requires Enabled(s, Restart(types, rows)) && Visible(s.database, types).Keys == s.memory.latest.Keys
    ensures Perform(s, Restart(types, rows)).memory.latest == s.memory.latest
  {
    InvariantTableIsStored(s);
    RestartLoadsVisible(s, types, rows);
    TableHoldsLatest(s);
    VisibleIsLatest(s.database, types, s.memory.latest);
  }

  lemma VisibleIsLatest(database: V.Latest, types: map<Uuid, DataType>, latest: V.Latest)
    requires Visible(database, types).Keys == latest.Keys
    requires forall id :: id in latest && id in database ==> database[id] == latest[id]
    ensures Visible(database, types) == latest
  {
  }

  // ---------------------------------------------------------------- exactly when

  /** Every state of every run without further restarts keeps the latest values in
      agreement. */
  ghost predicate StaysInAgreement(t: State) {
    forall run :: Run(run, NextLive) && run[0] == t ==> Agrees(run[|run| - 1])
  }

  ghost predicate NextLive(s: State, t: State) {
    exists step :: Takes(s, step, t) && !step.Restart?
  }

  /** Of the hidden rows ahead of a numbering, the one ahead by least. */
  lemma {:induction false} LeastHidden(database: V.Latest, hidden: set<Uuid>) returns (h: Uuid)
    requires hidden != {} && forall id :: id in hidden ==> id in database
    ensures h in hidden && forall id :: id in hidden ==> database[h].sequence <= database[id].sequence
    decreases |hidden|
  {
    h :| h in hidden;
    if hidden != {h} {
      var other := LeastHidden(database, hidden - {h});
      if database[other].sequence < database[h].sequence {
        h := other;
      }
    }
  }

  /** The value whose loss shows the disagreement: newly observed, for the hidden tag. */
  function Witness(row: TagValue): TagValue {
    TagValue(row.tagId, 0, row.observedAt + 1, 0, Bad, row.dataType, NoScalar, "lost")
  }

  /** A hidden tag receives a value, which becomes its latest and pending one. */
  lemma PutsHidden(t: State, h: Uuid) returns (a: State, stored: TagValue)
    requires t.started && !t.stopped && t.pending == map[]
    requires h in t.database && t.database[h].tagId == h && WellStored(t.database[h])
    ensures Takes(t, Put(Witness(t.database[h]), 1), a)
    ensures stored.tagId == h && stored.sequence == t.memory.sequence + 1 && stored.storedAt == 1
    ensures stored.observedAt != t.database[h].observedAt
    ensures a.memory.latest == t.memory.latest[h := stored]
    ensures a == t.(memory := a.memory, pending := map[h := stored])
  {
    var value := Witness(t.database[h]);
    assert Normalize(value).Some?;
    a := Perform(t, Put(value, 1));
    stored := V.Stamped(t.memory, Normalize(value).value, 1);
  }

  /** The only pending value is flushed, and an older number leaves its row alone. */
  lemma FlushesHidden(a: State, h: Uuid, stored: TagValue) returns (b: State, c: State)
    requires a.pending == map[h := stored] && a.inFlight == [] && a.failed == None
    requires stored.tagId == h && h in a.database && stored.sequence <= a.database[h].sequence
    requires Lands(a.database, a.deleted, stored)
    ensures Takes(a, TakePending([stored]), b) && Takes(b, WriteSucceeds, c)
    ensures c == a.(pending := map[])
  {
    assert Lists([stored], a.pending);
    b := Perform(a, TakePending([stored]));
    c := Perform(b, WriteSucceeds);
  }

  lemma TakesLive(s: State, step: Step, t: State)
    requires Takes(s, step, t) && !step.Restart?
    ensures NextLive(s, t)
  {
  }

  lemma ThreeStepsDisagree(t: State, a: State, b: State, c: State)
    requires NextLive(t, a) && NextLive(a, b) && NextLive(b, c) && !Agrees(c)
    ensures !StaysInAgreement(t)
  {
    var run := ThreeSteps(NextLive, t, a, b, c);
  }

  /** One put of a hidden tag whose row is ahead is flushed without reaching the table. */
  lemma HiddenRowSwallowsWrite(t: State, h: Uuid)
    requires t.started && !t.stopped && t.pending == map[] && t.inFlight == [] && t.failed == None
    requires h in t.database && t.database[h].tagId == h && WellStored(t.database[h])
    requires t.memory.sequence < t.database[h].sequence <= MAX_SEQUENCE && h !in t.deleted
    requires forall id :: id in t.database && id != h ==> t.database[id].sequence != t.memory.sequence + 1
    ensures !StaysInAgreement(t)
  {
    var a, stored := PutsHidden(t, h);
    var b, c := FlushesHidden(a, h, stored);
    assert c.Flight() == [] && !TagAgrees(c, h);
    TakesLive(t, Put(Witness(t.database[h]), 1), a);
    TakesLive(a, TakePending([stored]), b);
    TakesLive(b, WriteSucceeds, c);
    ThreeStepsDisagree(t, a, b, c);
  }

  lemma InvariantStaysInAgreement(t: State)
    requires Invariant(t)
    ensures StaysInAgreement(t)
  {
    forall s, u | Invariant(s) && NextLive(s, u) ensures Invariant(u) {
      NextKeepsInvariant(s, u);
    }
    forall run | Run(run, NextLive) && run[0] == t ensures Agrees(run[|run| - 1]) {
      Preserved(run, NextLive, Invariant, |run| - 1);
    }
  }

  /** After a restart the stores stay in agreement, in every run, exactly when no row that
      was left out is numbered above every row that was loaded. */
  lemma AgreementAfterRestart(s: State, types: map<Uuid, DataType>, rows: seq<TagValue>)
    requires TableStored(s.database, s.deleted) && Enabled(s, Restart(types, rows))
    ensures StaysInAgreement(Perform(s, Restart(types, rows))) <==> NoHiddenAhead(s.database, types)
  {
    var t := Perform(s, Restart(types, rows));
    if NoHiddenAhead(s.database, types) {
      RestartGivesInvariant(s, types, rows);
      InvariantStaysInAgreement(t);
    } else {
      HiddenAheadExists(s, types, rows);
    }
  }

  /** The restored numbering stays below a row that is above every loaded one. */
  lemma NumberingBelow(rows: seq<TagValue>, visible: V.Latest, bound: nat)
    requires Lists(rows, visible) && bound > 0 && forall v :: v in rows ==> M.Restorable(v)
    requires forall w :: w in visible ==> visible[w].sequence < bound
    ensures M.Restoration(rows).sequence < bound
  {
    RestorationSequence(rows);
    if M.Restoration(rows).sequence != 0 {
      var i :| 0 <= i < |rows| && rows[i].sequence == M.Restoration(rows).sequence;
      assert rows[i] in rows;
    }
  }

  lemma HiddenAheadExists(s: State, types: map<Uuid, DataType>, rows: seq<TagValue>)
    requires TableStored(s.database, s.deleted) && Enabled(s, Restart(types, rows)) && !NoHiddenAhead(s.database, types)
    ensures !StaysInAgreement(Perform(s, Restart(types, rows)))
  {
    var t, visible := Perform(s, Restart(types, rows)), Visible(s.database, types);
    var x :| x in s.database && x !in visible
             && forall w :: w in visible ==> s.database[w].sequence < s.database[x].sequence;
    assert RowStored(x, s.database[x]);
    NumberingBelow(rows, visible, s.database[x].sequence);
    var ahead := set id | id in s.database && s.database[id].sequence > t.memory.sequence;
    assert x in ahead;
    var h := LeastHidden(s.database, ahead);
    assert RowStored(h, s.database[h]);
    forall id | id in s.database && id != h ensures s.database[id].sequence != t.memory.sequence + 1 {
      assert s.database[id].sequence != s.database[h].sequence;
    }
    HiddenRowSwallowsWrite(t, h);
  }
}
