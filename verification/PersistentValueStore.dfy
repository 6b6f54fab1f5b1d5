/** The persistent value store as it runs: the pending map and its flush loop, over a
    memory store and a table, each method proved to take the steps of PersistentStore. */
module PersistentValueStore {
  import opened Identifiers
  import opened TagValues
  import V = ValueStore
  import M = MemoryValueStore
  import P = PersistentStore

  /** How a write ends: done, refused, or reported as failed although it was done. */
  datatype WriteOutcome = Written | Lost | LostButApplied

  datatype Write = Write(value: TagValue, ok: bool)

  function ValuesOf(writes: seq<Write>): (r: seq<TagValue>)
    ensures |r| == |writes| && forall i :: 0 <= i < |r| ==> r[i] == writes[i].value
  {
    seq(|writes|, i requires 0 <= i < |writes| => writes[i].value)
  }

  /** What is pending again after the given writes of a flush. */
  function PutBackFailures(writes: seq<Write>): map<Uuid, TagValue> {
    if writes == [] then map[]
    else
      var before, last := PutBackFailures(writes[..|writes| - 1]), writes[|writes| - 1];
      if last.ok then before else P.PutBack(before, last.value)
  }

  lemma PutBackNext(writes: seq<Write>, next: Write)
    ensures PutBackFailures(writes + [next])
         == if next.ok then PutBackFailures(writes) else P.PutBack(PutBackFailures(writes), next.value)
  {
    assert (writes + [next])[..|writes|] == writes;
  }

  /** Exactly these writes of these values were logged, and what failed is pending again. */
  ghost predicate Flushed(first: seq<Write>, log: seq<Write>, values: seq<TagValue>, writes: seq<Write>,
                          pending: map<Uuid, TagValue>)
  {
    log == first + writes && ValuesOf(writes) == values && pending == PutBackFailures(writes)
  }

  lemma FlushedNext(first: seq<Write>, values: seq<TagValue>, writes: seq<Write>, next: Write)
    requires Flushed(first, first + writes, values, writes, PutBackFailures(writes))
    ensures Flushed(first, first + writes + [next], values + [next.value], writes + [next],
                    if next.ok then PutBackFailures(writes) else P.PutBack(PutBackFailures(writes), next.value))
  {
    PutBackNext(writes, next);
    assert first + writes + [next] == first + (writes + [next]);
  }

  /** The table, with a log of the writes attempted. */
  class Table {
    var rows: V.Latest
    var deleted: set<Uuid>
    ghost var log: seq<Write>

    constructor (rows: V.Latest)
      ensures this.rows == rows && deleted == {}
    {
      this.rows := rows;
      deleted := {};
      log := [];
    }

    /** A tag is deleted, and its row with it. */
    method DeleteTag(id: Uuid)
      modifies this`rows, this`deleted
      ensures rows == old(rows) - {id} && deleted == old(deleted) + {id}
    {
      rows, deleted := rows - {id}, deleted + {id};
    }

    method UpsertLatest(value: TagValue, outcome: WriteOutcome) returns (ok: bool)
      modifies this`rows, this`log
      ensures ok <==> outcome == Written && P.Lands(old(rows), deleted, value)
      ensures rows == if outcome != Lost && P.Lands(old(rows), deleted, value)
                      then P.Upserted(old(rows), value) else old(rows)
      ensures log == old(log) + [Write(value, ok)]
      ensures rows != old(rows) ==> rows == old(rows)[value.tagId := value]
      ensures ok ==>
                && 0 < value.sequence <= 0x7FFF_FFFF_FFFF_FFFF && value.storedAt != 0 && value.tagId !in deleted
                && (forall id :: id in old(rows) && id != value.tagId ==> old(rows)[id].sequence != value.sequence)
                && value.tagId in rows
                && rows[value.tagId] ==
                     if value.tagId in old(rows) && old(rows)[value.tagId].sequence >= value.sequence
                     then old(rows)[value.tagId] else value
    {
      log := log + [Write(value, outcome == Written && P.Lands(rows, deleted, value))];
      if outcome == Lost || !P.Lands(rows, deleted, value) {
        return false;
      }
      rows := P.Upserted(rows, value);
      return outcome == Written;
    }
  }

  datatype PutResult = Accepted(value: TagValue) | InvalidValue | NotReady | StoreStopped

  datatype StartResult = Started | AlreadyStarted | LoadFailed

  class Store {
    const memory: M.Store
    const table: Table
    var pending: map<Uuid, TagValue>
    var started: bool
    var stopped: bool

    /** The abstract state, given what the flush loop holds. */
    ghost function State(inFlight: seq<TagValue>, failed: Option<TagValue>): P.State
      reads this, memory, table
    {
      P.State(memory.State(), pending, inFlight, failed, table.rows, table.deleted, started, stopped)
    }

    constructor (table: Table)
      ensures fresh(memory) && this.table == table
      ensures State([], None) == P.State(V.EMPTY, map[], [], None, table.rows, table.deleted, false, false)
    {
      memory := new M.Store();
      this.table := table;
      pending, started, stopped := map[], false, false;
    }

    /** `rows` is what listing the table returns; None is a failed listing. */
    method Start(types: map<Uuid, DataType>, rows: Option<seq<TagValue>>) returns (result: StartResult)
      requires started || stopped || (memory.State() == V.EMPTY && pending == map[])
      requires rows.Some? ==> P.Lists(rows.value, P.Visible(table.rows, types))
      modifies this, memory
      ensures result == AlreadyStarted <==> old(started || stopped)
      ensures result == Started ==>
                && rows.Some? && P.Enabled(old(State([], None)), P.Restart(types, rows.value))
                && State([], None) == P.Perform(old(State([], None)), P.Restart(types, rows.value))
      ensures result == Started && P.TableStored(table.rows, table.deleted) && P.NoHiddenAhead(table.rows, types) ==>
                P.Invariant(State([], None))
      ensures result != Started ==> State([], None) == old(State([], None))
    {
      if started || stopped {
        return AlreadyStarted;
      }
      if rows.None? {
        return LoadFailed;
      }
      var restored := memory.RestoreLatest(rows.value);
      if restored != M.Restored {
        return LoadFailed;
      }
      ghost var before := State([], None);
      started := true;
      RestorationHasNoSubscribers(rows.value);
      if P.TableStored(table.rows, table.deleted) && P.NoHiddenAhead(table.rows, types) {
        P.RestartGivesInvariant(before, types, rows.value);
      }
      return Started;
    }

    method Put(value: TagValue, now: nat) returns (result: PutResult)
      modifies this, memory
      ensures result == NotReady <==> !old(started)
      ensures result == StoreStopped <==> old(started && stopped)
      ensures !P.Enabled(old(State([], None)), P.Put(value, now)) ==> State([], None) == old(State([], None))
      ensures P.Enabled(old(State([], None)), P.Put(value, now)) ==>
                State([], None) == P.Perform(old(State([], None)), P.Put(value, now))
    {
      if !started {
        return NotReady;
      }
      if stopped {
        return StoreStopped;
      }
      var stored := memory.Put(value, now);
      if stored.Invalid? {
        return InvalidValue;
      }
      pending := pending[stored.value.tagId := stored.value];
      return Accepted(stored.value);
    }

    /** Empties pending; the values come sorted by sequence. */
    method TakePending() returns (values: seq<TagValue>)
      requires forall id :: id in pending ==> pending[id].tagId == id
      requires forall a, b :: a in pending && b in pending && a != b ==> pending[a].sequence != pending[b].sequence
      modifies this`pending
      ensures pending == map[] && P.Lists(values, old(pending))
    {
      values := [];
      while pending != map[]
        invariant forall id :: id in pending ==> id in old(pending) && pending[id] == old(pending)[id]
        invariant V.Increasing(values)
        invariant forall v :: v in values ==>
                    v.tagId in old(pending) && v.tagId !in pending && old(pending)[v.tagId] == v
        invariant forall id :: id in old(pending) && id !in pending ==> old(pending)[id] in values
        decreases pending.Keys
      {
        var id :| id in pending;
        values := M.InsertBySequence(values, pending[id]);
        pending := pending - {id};
      }
    }

    method Requeue(value: TagValue)
      modifies this`pending
      ensures pending == P.PutBack(old(pending), value)
      ensures pending ==
                if value.tagId in old(pending) && old(pending)[value.tagId].sequence >= value.sequence
                then old(pending) else old(pending)[value.tagId := value]
    {
      if value.tagId !in pending || pending[value.tagId].sequence < value.sequence {
        pending := pending[value.tagId := value];
      }
    }

    /** One flush: every pending value is written once, by sequence, and put back exactly
        when its write fails. The outcome of the k-th write is given. */
    method Flush(outcomes: nat -> WriteOutcome) returns (ghost writes: seq<Write>)
      requires P.Invariant(State([], None))
      modifies this`pending, table`rows, table`log
      ensures P.Invariant(State([], None)) && P.RowsGrow(old(table.rows), table.rows, {})
      ensures table.log == old(table.log) + writes && P.Lists(ValuesOf(writes), old(pending))
      ensures pending == PutBackFailures(writes)
    {
      ghost var before := State([], None);
      PendingIsListable(before);
      var values := TakePending();
      assert before.Flight() == [];
      P.TakeKeepsInvariant(before, values);
      assert State(values, None) == P.Perform(before, P.TakePending(values));
      writes := WriteAll(values, outcomes);
    }

    method WriteAll(values: seq<TagValue>, outcomes: nat -> WriteOutcome) returns (ghost writes: seq<Write>)
      requires P.Invariant(State(values, None)) && pending == map[]
      modifies this`pending, table`rows, table`log
      ensures P.Invariant(State([], None)) && P.RowsGrow(old(table.rows), table.rows, {})
      ensures table.log == old(table.log) + writes && ValuesOf(writes) == values
      ensures pending == PutBackFailures(writes)
    {
      ghost var rest, first := values, table.log;
      writes := [];
      for i := 0 to |values|
        invariant rest == values[i..] && P.Invariant(State(rest, None))
        invariant P.RowsGrow(old(table.rows), table.rows, {})
        invariant Flushed(first, table.log, values[..i], writes, pending)
      {
        NextValue(values, i);
        ghost var before := table.rows;
        ghost var write := WriteOne(values[i], values[i + 1..], outcomes(i));
        P.RowsGrowOn(old(table.rows), before, table.rows, {}, {});
        FlushedNext(first, values[..i], writes, write);
        writes := writes + [write];
        rest := values[i + 1..];
      }
      assert rest == [] && values[..|values|] == values;
    }

    method WriteOne(value: TagValue, ghost rest: seq<TagValue>, outcome: WriteOutcome) returns (ghost write: Write)
      requires P.Invariant(State([value] + rest, None))
      modifies this`pending, table`rows, table`log
      ensures P.Invariant(State(rest, None)) && P.RowsGrow(old(table.rows), table.rows, {})
      ensures table.log == old(table.log) + [write] && write.value == value
      ensures pending == if write.ok then old(pending) else P.PutBack(old(pending), value)
    {
      ghost var before := State([value] + rest, None);
      ghost var applied := outcome != Lost && P.Lands(before.database, before.deleted, value);
      var ok := table.UpsertLatest(value, outcome);
      write := Write(value, ok);
      if !ok {
        Requeue(value);
      }
      assert State(rest, None) == AfterWrite(before, ok, applied);
      WriteOrPutBack(before, ok, applied);
    }

    /** The last flushes before a stop, as many as the deadline leaves room for. */
    method Finish(rounds: nat, outcomes: nat -> nat -> WriteOutcome)
      requires P.Invariant(State([], None))
      modifies this, table`rows, table`log
      ensures stopped && P.Invariant(State([], None))
      ensures P.RowsGrow(old(table.rows), table.rows, {})
      ensures pending == map[] ==>
                forall id :: id in memory.latest && id !in table.deleted ==>
                  id in table.rows && table.rows[id] == memory.latest[id]
    {
      P.StopKeepsInvariant(State([], None));
      stopped := true;
      var round := 0;
      while round < rounds && pending != map[]
        invariant stopped && P.Invariant(State([], None))
        invariant P.RowsGrow(old(table.rows), table.rows, {})
      {
        ghost var before := table.rows;
        ghost var writes := Flush(outcomes(round));
        P.RowsGrowOn(old(table.rows), before, table.rows, {}, {});
        round := round + 1;
      }
      if pending == map[] {
        P.TableHoldsLatest(State([], None));
      }
    }
  }

  /** A write that lands, or one that fails and is put back, applied or not. */
  ghost function AfterWrite(s: P.State, ok: bool, applied: bool): P.State
    requires s.inFlight != []
  {
    var value := s.inFlight[0];
    s.(inFlight := s.inFlight[1..], pending := if ok then s.pending else P.PutBack(s.pending, value),
       database := if applied then P.Upserted(s.database, value) else s.database)
  }

  lemma WriteOrPutBack(s: P.State, ok: bool, applied: bool)
    requires P.Invariant(s) && s.failed == None && s.inFlight != [] && (ok ==> applied)
    requires applied ==> P.Lands(s.database, s.deleted, s.inFlight[0])
    ensures P.Invariant(AfterWrite(s, ok, applied)) && P.RowsGrow(s.database, AfterWrite(s, ok, applied).database, {})
  {
    if ok {
      P.WriteKeepsInvariant(s, P.WriteSucceeds);
      P.WriteGrowsRows(s, P.WriteSucceeds);
    } else {
      var t := P.Perform(s, P.WriteFails(applied));
      P.WriteKeepsInvariant(s, P.WriteFails(applied));
      P.WriteGrowsRows(s, P.WriteFails(applied));
      P.RequeueKeepsInvariant(t);
      assert P.Perform(t, P.Requeue) == AfterWrite(s, ok, applied);
    }
  }

  lemma NextValue(values: seq<TagValue>, i: nat)
    requires i < |values|
    ensures values[i..] == [values[i]] + values[i + 1..] && values[..i + 1] == values[..i] + [values[i]]
  {
  }

  lemma PendingIsListable(s: P.State)
    requires P.Invariant(s)
    ensures forall id :: id in s.pending ==> s.pending[id].tagId == id
    ensures forall a, b :: a in s.pending && b in s.pending && a != b ==> s.pending[a].sequence != s.pending[b].sequence
  {
    forall id | id in s.pending ensures id in s.memory.latest && s.pending[id] == s.memory.latest[id] {
      assert P.TagAgrees(s, id);
    }
  }

  lemma {:induction false} RestorationHasNoSubscribers(rows: seq<TagValue>)
    requires forall v :: v in rows ==> M.Restorable(v)
    ensures M.Restoration(rows).subscribers == map[] && M.Restoration(rows).nextSubscriber == 0
  {
    if rows != [] {
      assert M.Restorable(rows[|rows| - 1]);
      RestorationHasNoSubscribers(rows[..|rows| - 1]);
    }
  }
}
