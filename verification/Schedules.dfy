/**
 Schedules and targets: their tables, what other sessions do to them, the due snapshot, and a log of advances
 and scans that tells when a schedule may be advanced again.
 */
module Schedules {
  import opened Wrappers
  import Inventory

  type ScheduleId = nat
  type TargetId = nat

  /** Clock values are microseconds. */
  const SECOND := 1_000_000

  datatype Schedule = Schedule(target: TargetId, intervalSecs: int, enabled: bool, nextRunAt: Option<int>)
  datatype Target = Target(cidrs: seq<string>, enabled: bool)

  /** An entry of the due snapshot, with what its scan needs. */
  datatype Due = Due(id: ScheduleId, target: TargetId, intervalSecs: int, cidrs: seq<string>)

  /** An UPDATE of AdvanceSchedule that was executed, with whether it found a row; and a scan's ends. */
  datatype Event =
    | Advanced(id: ScheduleId, at: int, intervalSecs: int, found: bool)
    | ScanStarted(id: ScheduleId)
    | ScanFinished(id: ScheduleId)

  // ---- The tables and the other sessions ----

  /** `created` is history: every schedule ever inserted, as it was then.  An id is never used again. */
  datatype Tables = Tables(schedules: map<ScheduleId, Schedule>, targets: map<TargetId, Target>,
      created: map<ScheduleId, Schedule>)

  datatype Edit =
    | AddTarget(target: TargetId, row: Target)
    | AddSchedule(id: ScheduleId, target: TargetId, intervalSecs: int, enabled: bool)
    | DropTarget(target: TargetId)

  /** A statement of another session; one that breaks a key changes nothing. */
  function Edited(t: Tables, e: Edit, now: int): Tables {
    match e
    case AddTarget(target, row) => if target in t.targets then t else t.(targets := t.targets[target := row])
    case AddSchedule(id, target, intervalSecs, enabled) =>
      if id in t.created || target !in t.targets || !Inventory.Int4Fits(intervalSecs) then t
      else
        var row := Schedule(target, intervalSecs, enabled, Some(now));
        t.(schedules := t.schedules[id := row], created := t.created[id := row])
    case DropTarget(target) =>
      t.(targets := t.targets - {target},
         schedules := map id | id in t.schedules && t.schedules[id].target != target :: t.schedules[id])
  }

  function EditedAll(t: Tables, edits: seq<Edit>, now: int): Tables {
    if edits == [] then t else Edited(EditedAll(t, edits[..|edits| - 1], now), edits[|edits| - 1], now)
  }

  /** From `a` to `b` schedules came and went: none came back, and those that stayed kept their target. */
  ghost predicate Later(a: Tables, b: Tables) {
    && a.created.Keys <= b.created.Keys
    && (forall id :: id in a.created ==> b.created[id] == a.created[id])
    && (forall id :: id in b.schedules && id in a.created ==>
          && id in a.schedules && b.schedules[id].target == a.schedules[id].target
          && b.schedules[id].target in a.targets && b.schedules[id].target in b.targets
          && b.targets[b.schedules[id].target] == a.targets[b.schedules[id].target])
  }

  // ---- Reading the log ----

  /** The earliest time at which `id` may be advanced again: its interval after its latest advance. */
  function Earliest(log: seq<Event>, id: ScheduleId): Option<int> {
    if log == [] then None
    else
      var e := log[|log| - 1];
      if e.Advanced? && e.id == id then Some(e.at + e.intervalSecs * SECOND) else Earliest(log[..|log| - 1], id)
  }

  ghost predicate Respects(log: seq<Event>, e: Event) {
    e.Advanced? && Earliest(log, e.id).Some? ==> e.at >= Earliest(log, e.id).value
  }

  /** Each advance comes at least the previous one's interval after it. */
  ghost predicate Spaced(log: seq<Event>) {
    log == [] || (Spaced(log[..|log| - 1]) && Respects(log[..|log| - 1], log[|log| - 1]))
  }

  /** Every scan starts right after the advance of its schedule and ends before anything else happens. */
  ghost predicate Bracketed(log: seq<Event>) {
    && (forall i :: 0 <= i < |log| && log[i].ScanStarted? ==>
          && i > 0 && log[i - 1].Advanced? && log[i - 1].id == log[i].id
          && i + 1 < |log| && log[i + 1] == ScanFinished(log[i].id))
    && (forall i :: 0 <= i < |log| && log[i].ScanFinished? ==> i > 0 && log[i - 1] == ScanStarted(log[i].id))
  }

  /** Two consecutive advances of one schedule are at least its interval apart. */
  lemma {:induction false} ConsecutiveAdvances(log: seq<Event>, i: nat, j: nat)
    requires Spaced(log) && i < j < |log|
    requires log[i].Advanced? && log[j].Advanced? && log[i].id == log[j].id
    requires forall k :: i < k < j ==> !(log[k].Advanced? && log[k].id == log[i].id)
    ensures log[j].at >= log[i].at + log[i].intervalSecs * SECOND
    decreases |log|
  {
    var init := log[..|log| - 1];
    if j < |log| - 1 {
      ConsecutiveAdvances(init, i, j);
    } else {
      EarliestIs(init, i);
    }
  }

  lemma {:induction false} EarliestIs(log: seq<Event>, i: nat)
    requires i < |log| && log[i].Advanced?
    requires forall k :: i < k < |log| ==> !(log[k].Advanced? && log[k].id == log[i].id)
    ensures Earliest(log, log[i].id) == Some(log[i].at + log[i].intervalSecs * SECOND)
  {
    if i < |log| - 1 {
      EarliestIs(log[..|log| - 1], i);
    }
  }

  predicate AdvanceOf(e: Event, id: ScheduleId) {
    e.Advanced? && e.id == id
  }

  lemma {:induction false} LastAdvanceBefore(log: seq<Event>, id: ScheduleId, i: nat, j: nat) returns (k: nat)
    requires i < j <= |log| && AdvanceOf(log[i], id)
    ensures i <= k < j && AdvanceOf(log[k], id) && forall m :: k < m < j ==> !AdvanceOf(log[m], id)
    decreases j
  {
    if AdvanceOf(log[j - 1], id) {
      k := j - 1;
    } else {
      k := LastAdvanceBefore(log, id, i, j - 1);
    }
  }

  /** Any two advances of one schedule are at least the earlier one's interval apart. */
  lemma {:induction false} AdvancesAreSpaced(log: seq<Event>, i: nat, j: nat)
    requires Spaced(log) && i < j < |log|
    requires log[i].Advanced? && AdvanceOf(log[j], log[i].id)
    requires forall k :: 0 <= k < |log| && log[k].Advanced? ==> log[k].intervalSecs >= 0
    ensures log[j].at >= log[i].at + log[i].intervalSecs * SECOND
    decreases j
  {
    var k := LastAdvanceBefore(log, log[i].id, i, j);
    ConsecutiveAdvances(log, k, j);
    if k > i {
      AdvancesAreSpaced(log, i, k);
    }
  }

  /** Two scans of one schedule never overlap, and their advances are at least its interval apart. */
  lemma ScansAreSpaced(log: seq<Event>, i: nat, j: nat)
    requires Spaced(log) && Bracketed(log) && i < j < |log|
    requires log[i].ScanStarted? && log[j] == ScanStarted(log[i].id)
    requires forall k :: 0 <= k < |log| && log[k].Advanced? ==> log[k].intervalSecs >= 0
    ensures 0 < i && i + 1 < j - 1 && log[i + 1] == ScanFinished(log[i].id)
    ensures log[i - 1].Advanced? && log[j - 1].Advanced?
    ensures log[j - 1].at >= log[i - 1].at + log[i - 1].intervalSecs * SECOND
  {
    AdvancesAreSpaced(log, i - 1, j - 1);
  }

  lemma LogOne(log: seq<Event>, e: Event)
    ensures forall id :: Earliest(log + [e], id) ==
              if e.Advanced? && e.id == id then Some(e.at + e.intervalSecs * SECOND) else Earliest(log, id)
    ensures Spaced(log + [e]) <==> (Spaced(log) && Respects(log, e))
  {
    assert (log + [e])[..|log|] == log;
  }

  lemma BracketedAdvance(log: seq<Event>, e: Event)
    requires Bracketed(log) && e.Advanced?
    ensures Bracketed(log + [e])
  {
    var longer := log + [e];
    assert forall i :: 0 <= i < |log| ==> longer[i] == log[i];
  }

  lemma BracketedScan(log: seq<Event>, id: ScheduleId)
    requires Bracketed(log) && log != [] && log[|log| - 1].Advanced? && log[|log| - 1].id == id
    ensures Bracketed(log + [ScanStarted(id), ScanFinished(id)])
  {
    var longer := log + [ScanStarted(id), ScanFinished(id)];
    assert forall i :: 0 <= i < |log| ==> longer[i] == log[i];
  }

  // ---- The tables and the log ----

  /** The row of `id`: as created, with its next run put off by the latest advance. */
  function RowOf(created: map<ScheduleId, Schedule>, log: seq<Event>, id: ScheduleId): Schedule
    requires id in created
  {
    if Earliest(log, id).Some? then created[id].(nextRunAt := Earliest(log, id)) else created[id]
  }

  /** The schedules are those created and not deleted, and the log tells what their rows are. */
  ghost predicate TableOk(t: Tables, log: seq<Event>) {
    && (forall id :: id in t.schedules ==>
          id in t.created && t.schedules[id] == RowOf(t.created, log, id) && t.schedules[id].target in t.targets)
    && (forall id :: Earliest(log, id).Some? ==> id in t.created)
  }

  lemma EditKeepsTable(t: Tables, log: seq<Event>, e: Edit, now: int)
    requires TableOk(t, log)
    ensures TableOk(Edited(t, e, now), log) && Later(t, Edited(t, e, now))
  {
  }

  lemma LaterTransitive(a: Tables, b: Tables, c: Tables)
    requires Later(a, b) && Later(b, c)
    ensures Later(a, c)
  {
  }

  lemma LaterReflexive(t: Tables, log: seq<Event>)
    requires TableOk(t, log)
    ensures Later(t, t)
  {
  }

  lemma {:induction false} EditsKeepTable(t: Tables, log: seq<Event>, edits: seq<Edit>, now: int)
    requires TableOk(t, log)
    ensures TableOk(EditedAll(t, edits, now), log) && Later(t, EditedAll(t, edits, now))
  {
    if edits == [] {
      LaterReflexive(t, log);
    } else {
      var init := EditedAll(t, edits[..|edits| - 1], now);
      EditsKeepTable(t, log, edits[..|edits| - 1], now);
      EditKeepsTable(init, log, edits[|edits| - 1], now);
      LaterTransitive(t, init, Edited(init, edits[|edits| - 1], now));
    }
  }

  /** next_run_at := at + interval, where there is such a row. */
  function Pushed(t: Tables, id: ScheduleId, at: int, intervalSecs: int): Tables {
    if id in t.schedules then
      var row := t.schedules[id].(nextRunAt := Some(at + intervalSecs * SECOND));
      t.(schedules := t.schedules[id := row])
    else t
  }

  /** The time of `id` has come again. */
  ghost predicate Ripe(log: seq<Event>, id: ScheduleId, now: int) {
    Earliest(log, id).Some? ==> Earliest(log, id).value <= now
  }

  // ---- The due snapshot ----

  /** Enabled, with an enabled target, and its time has come. */
  predicate IsDue(t: Tables, id: ScheduleId, now: int) {
    && id in t.schedules && t.schedules[id].enabled
    && t.schedules[id].target in t.targets && t.targets[t.schedules[id].target].enabled
    && (t.schedules[id].nextRunAt.None? || t.schedules[id].nextRunAt.value <= now)
  }

  function EntryOf(t: Tables, id: ScheduleId, now: int): Due
    requires IsDue(t, id, now)
  {
    var row := t.schedules[id];
    Due(id, row.target, row.intervalSecs, t.targets[row.target].cidrs)
  }

  ghost predicate DistinctIds(due: seq<Due>) {
    forall i, j :: 0 <= i < j < |due| ==> due[i].id != due[j].id
  }

  /** `due` lists the entry of each due schedule of `ids`, once. */
  ghost predicate IsSnapshotOf(t: Tables, now: int, due: seq<Due>, ids: set<ScheduleId>) {
    && (forall i :: 0 <= i < |due| ==>
        IsDue(t, due[i].id, now) && due[i] == EntryOf(t, due[i].id, now) && due[i].id in ids)
    && DistinctIds(due)
    && (forall id :: id in ids && IsDue(t, id, now) ==> exists i :: 0 <= i < |due| && due[i].id == id)
  }

  ghost predicate IsSnapshot(t: Tables, now: int, due: seq<Due>) {
    IsSnapshotOf(t, now, due, t.schedules.Keys)
  }

  /** The snapshot lists a schedule exactly when it is enabled, its target too, and its time, if it has one, has
      come; and with it its target, interval and addresses. */
  lemma SnapshotIff(t: Tables, now: int, due: seq<Due>, id: ScheduleId)
    requires IsSnapshot(t, now, due)
    ensures (exists i :: 0 <= i < |due| && due[i].id == id)
            <==> && id in t.schedules && t.schedules[id].enabled && t.schedules[id].target in t.targets
                 && t.targets[t.schedules[id].target].enabled
                 && (t.schedules[id].nextRunAt.Some? ==> t.schedules[id].nextRunAt.value <= now)
    ensures forall i :: 0 <= i < |due| && due[i].id == id ==>
              && id in t.schedules && due[i].target == t.schedules[id].target && due[i].target in t.targets
              && due[i].intervalSecs == t.schedules[id].intervalSecs && due[i].cidrs == t.targets[due[i].target].cidrs
  {
    if IsDue(t, id, now) {
      assert id in t.schedules.Keys;
    }
  }

  lemma SnapshotOneMore(t: Tables, now: int, due: seq<Due>, ids: set<ScheduleId>, id: ScheduleId)
    requires IsSnapshotOf(t, now, due, ids) && id !in ids
    ensures IsSnapshotOf(t, now, if IsDue(t, id, now) then due + [EntryOf(t, id, now)] else due, ids + {id})
  {
    if IsDue(t, id, now) {
      var longer := due + [EntryOf(t, id, now)];
      assert longer[|due|].id == id;
      forall other | other in ids + {id} && IsDue(t, other, now)
        ensures exists i :: 0 <= i < |longer| && longer[i].id == other
      {
        if other != id {
          var i :| 0 <= i < |due| && due[i].id == other;
          assert longer[i].id == other;
        }
      }
    }
  }

  /** The rows of the query, in whatever order the database returns them. */
  method ListDue(t: Tables, now: int) returns (rows: seq<Due>)
    ensures IsSnapshot(t, now, rows)
  {
    rows := [];
    var ids := t.schedules.Keys;
    var rest := ids;
    while rest != {}
      invariant rest <= ids && IsSnapshotOf(t, now, rows, ids - rest)
      decreases rest
    {
      var id :| id in rest;
      SnapshotOneMore(t, now, rows, ids - rest, id);
      assert ids - (rest - {id}) == (ids - rest) + {id};
      rest := rest - {id};
      if IsDue(t, id, now) {
        rows := rows + [EntryOf(t, id, now)];
      }
    }
    assert ids - rest == ids;
  }
}
