/**
 Whole runs of serial upserts: the change log is a faithful timeline, and information only grows.
 */
module Timeline {
  import opened Wrappers
  import opened Inventory
  import opened UpsertLaws

  // ---- Reading and replaying events ----

  function Get(s: Scalars, f: Field): string {
    match f
    case Hostname => s.hostname
    case PrimaryIp => s.primaryIp
    case Serial => s.serial
    case DeviceType => s.kind
    case OsName => s.osName
    case OsVersion => s.osVersion
  }

  function Put(s: Scalars, f: Field, v: string): (r: Scalars)
    ensures Get(r, f) == v
    ensures forall g :: g != f ==> Get(r, g) == Get(s, g)
  {
    match f
    case Hostname => s.(hostname := v)
    case PrimaryIp => s.(primaryIp := v)
    case Serial => s.(serial := v)
    case DeviceType => s.(kind := v)
    case OsName => s.(osName := v)
    case OsVersion => s.(osVersion := v)
  }

  /**
   Replays the events about `fields` over `s`, skipping the others.  None when some event is not
   genuine: its old value is not the value just before it, or it changes nothing.
   */
  function Replay(s: Scalars, events: seq<Change>, fields: set<Field>): Option<Scalars>
    decreases events
  {
    if events == [] then Some(s)
    else
      var e := events[0];
      if e.field !in fields then Replay(s, events[1..], fields)
      else if Get(s, e.field) == e.before && e.before != e.after then
        Replay(Put(s, e.field, e.after), events[1..], fields)
      else None
  }

  ghost predicate AgreeOn(fields: set<Field>, a: Scalars, b: Scalars) {
    forall f :: f in fields ==> Get(a, f) == Get(b, f)
  }

  function EventsOf(log: seq<ChangeRow>, id: Id): seq<Change> {
    if log == [] then []
    else (if log[0].device == id then [log[0].change] else []) + EventsOf(log[1..], id)
  }

  lemma {:induction false} EventsOfAppend(a: seq<ChangeRow>, b: seq<ChangeRow>, id: Id)
    ensures EventsOf(a + b, id) == EventsOf(a, id) + EventsOf(b, id)
  {
    if a == [] {
      assert a + b == b;
    } else {
      var here := if a[0].device == id then [a[0].change] else [];
      EventsOfAppend(a[1..], b, id);
      assert (a + b)[1..] == a[1..] + b;
      assert EventsOf(a + b, id) == here + EventsOf(a[1..] + b, id);
      assert here + (EventsOf(a[1..], id) + EventsOf(b, id)) == (here + EventsOf(a[1..], id)) + EventsOf(b, id);
    }
  }

  lemma {:induction false} EventsOfLogRows(id: Id, run: string, changes: seq<Change>, other: Id)
    ensures EventsOf(LogRows(id, run, changes), other) == if other == id then changes else []
  {
    if changes != [] {
      EventsOfLogRows(id, run, changes[1..], other);
      assert LogRows(id, run, changes)[1..] == LogRows(id, run, changes[1..]);
    }
  }

  lemma {:induction false} NoEventsBefore(log: seq<ChangeRow>, id: Id)
    requires forall i :: 0 <= i < |log| ==> log[i].device != id
    ensures EventsOf(log, id) == []
  {
    if log != [] {
      NoEventsBefore(log[1..], id);
    }
  }

  lemma {:induction false} ReplayAppend(s: Scalars, a: seq<Change>, b: seq<Change>, fields: set<Field>)
    ensures var r := Replay(s, a, fields);
            Replay(s, a + b, fields) == if r.Some? then Replay(r.value, b, fields) else None
    decreases a
  {
    if a == [] {
      assert a + b == b;
    } else {
      assert (a + b)[1..] == a[1..] + b;
      if a[0].field !in fields {
        ReplayAppend(s, a[1..], b, fields);
      } else {
        ReplayAppend(Put(s, a[0].field, a[0].after), a[1..], b, fields);
      }
    }
  }

  /** Replay depends only on the fields it follows. */
  lemma {:induction false} ReplayAgrees(s: Scalars, s': Scalars, events: seq<Change>, fields: set<Field>)
    requires AgreeOn(fields, s, s')
    ensures Replay(s, events, fields).Some? == Replay(s', events, fields).Some?
    ensures Replay(s, events, fields).Some? ==>
              AgreeOn(fields, Replay(s, events, fields).value, Replay(s', events, fields).value)
    decreases events
  {
    if events != [] {
      var e := events[0];
      if e.field !in fields {
        ReplayAgrees(s, s', events[1..], fields);
      } else {
        ReplayAgrees(Put(s, e.field, e.after), Put(s', e.field, e.after), events[1..], fields);
      }
    }
  }

  // ---- One upsert's events ----

  /** The value a report brings for a field, "" when it brings none. */
  function Incoming(d: Device, f: Field): string {
    match f
    case Hostname => d.hostname
    case PrimaryIp => d.primaryIp
    case Serial => d.serial
    case DeviceType => if d.kind != UNKNOWN then d.kind else ""
    case OsName => if d.os.Some? then d.os.value.name else ""
    case OsVersion => if d.os.Some? then d.os.value.version else ""
  }

  const ORDER := [Hostname, PrimaryIp, Serial, DeviceType, OsName, OsVersion]

  function DiffOver(ex: Scalars, d: Device, fs: seq<Field>): seq<Change> {
    if fs == [] then [] else AddChange(fs[0], Get(ex, fs[0]), Incoming(d, fs[0])) + DiffOver(ex, d, fs[1..])
  }

  lemma Reassociate(a: seq<Change>, b: seq<Change>, c: seq<Change>, d: seq<Change>, e: seq<Change>)
    ensures a + b + c + d + e == a + (b + (c + (d + e)))
  {
  }

  lemma DiffIsDiffOver(ex: Scalars, d: Device)
    ensures Diff(ex, d) == DiffOver(ex, d, ORDER)
  {
    var v := AddChange(OsVersion, ex.osVersion, Incoming(d, OsVersion));
    var n := AddChange(OsName, ex.osName, Incoming(d, OsName));
    var k := AddChange(DeviceType, ex.kind, Incoming(d, DeviceType));
    var s := AddChange(Serial, ex.serial, Incoming(d, Serial));
    var p := AddChange(PrimaryIp, ex.primaryIp, Incoming(d, PrimaryIp));
    var h := AddChange(Hostname, ex.hostname, Incoming(d, Hostname));
    assert DiffOver(ex, d, [OsVersion]) == v;
    assert [OsName, OsVersion][1..] == [OsVersion];
    assert DiffOver(ex, d, [OsName, OsVersion]) == n + v;
    assert [DeviceType, OsName, OsVersion][1..] == [OsName, OsVersion];
    assert DiffOver(ex, d, [DeviceType, OsName, OsVersion]) == k + (n + v);
    assert [Serial, DeviceType, OsName, OsVersion][1..] == [DeviceType, OsName, OsVersion];
    assert DiffOver(ex, d, [Serial, DeviceType, OsName, OsVersion]) == s + (k + (n + v));
    assert [PrimaryIp, Serial, DeviceType, OsName, OsVersion][1..] == [Serial, DeviceType, OsName, OsVersion];
    assert DiffOver(ex, d, [PrimaryIp, Serial, DeviceType, OsName, OsVersion]) == p + (s + (k + (n + v)));
    assert ORDER[1..] == [PrimaryIp, Serial, DeviceType, OsName, OsVersion];
    Reassociate(h, p, s, k, n + v);
  }

  /** The value a field has after the events: the report's, or the old one when it brings none. */
  function Merged(ex: Scalars, d: Device, f: Field): string {
    if Incoming(d, f) != "" then Incoming(d, f) else Get(ex, f)
  }

  /** The report's value differs from the diffed one, so there is an event about `f`. */
  ghost predicate HasEvent(ex: Scalars, d: Device, f: Field) {
    Incoming(d, f) != "" && Incoming(d, f) != Get(ex, f)
  }

  /**
   The events of a diff against `ex`, replayed over `now`: they are genuine exactly when every value
   they replace is still the current one, and then they put the report's values there.
   */
  lemma {:induction false} DiffOverReplays(ex: Scalars, now: Scalars, d: Device, fs: seq<Field>, fields: set<Field>)
    requires forall i, j :: 0 <= i < j < |fs| ==> fs[i] != fs[j]
    ensures var r := Replay(now, DiffOver(ex, d, fs), fields);
            && (r.Some? <==> forall f :: f in fs && f in fields && HasEvent(ex, d, f) ==> Get(now, f) == Get(ex, f))
            && (r.Some? ==> forall f :: f in fs && f in fields ==>
                  Get(r.value, f) == if HasEvent(ex, d, f) then Incoming(d, f) else Get(now, f))
            && (r.Some? ==> forall f :: f !in fs ==> Get(r.value, f) == Get(now, f))
    decreases fs
  {
    if fs != [] {
      var f := fs[0];
      var here := AddChange(f, Get(ex, f), Incoming(d, f));
      ReplayAppend(now, here, DiffOver(ex, d, fs[1..]), fields);
      assert f !in fs[1..];
      assert forall g :: g in fs <==> g == f || g in fs[1..];
      if here == [] || f !in fields {
        assert Replay(now, here, fields) == Some(now);
        DiffOverReplays(ex, now, d, fs[1..], fields);
      } else if Get(now, f) == Get(ex, f) {
        var next := Put(now, f, Incoming(d, f));
        assert Replay(now, here, fields) == Some(next);
        DiffOverReplays(ex, next, d, fs[1..], fields);
      } else {
        assert Replay(now, here, fields) == None;
      }
    }
  }

  lemma EveryFieldIsOrdered(f: Field)
    ensures f in ORDER
  {
    assert f == ORDER[0] || f == ORDER[1] || f == ORDER[2] || f == ORDER[3] || f == ORDER[4] || f == ORDER[5];
  }

  /** An upsert's events are genuine and lead from the old scalars to the merged ones. */
  lemma DiffReplays(ex: Scalars, d: Device, fields: set<Field>)
    ensures Replay(ex, Diff(ex, d), fields).Some?
    ensures forall f :: f in fields ==> Get(Replay(ex, Diff(ex, d), fields).value, f) == Merged(ex, d, f)
  {
    DiffIsDiffOver(ex, d);
    DiffOverReplays(ex, ex, d, ORDER, fields);
    forall f { EveryFieldIsOrdered(f); }
  }

  /**
   A diff taken against an older snapshot `seen`: replaying it over the scalars that are current when
   it commits gives what the overlay stores exactly when no reported field moved in between.
   */
  lemma SnapshotReplayIff(seen: Scalars, now: Scalars, d: Device, fields: set<Field>)
    ensures var r := Replay(now, Diff(seen, d), fields);
            (r.Some? && forall f :: f in fields ==> Get(r.value, f) == Merged(now, d, f))
            <==> forall f :: f in fields && Incoming(d, f) != "" ==> Get(seen, f) == Get(now, f)
  {
    DiffIsDiffOver(seen, d);
    DiffOverReplays(seen, now, d, ORDER, fields);
    forall f { EveryFieldIsOrdered(f); }
    var r := Replay(now, Diff(seen, d), fields);
    if r.Some? {
      forall f | f in fields
        ensures Get(r.value, f) == Merged(now, d, f) <==> (Incoming(d, f) != "" ==> Get(seen, f) == Get(now, f))
      {
        assert HasEvent(seen, d, f) ==> Get(now, f) == Get(seen, f);
      }
    } else {
      var f :| f in ORDER && f in fields && HasEvent(seen, d, f) && Get(now, f) != Get(seen, f);
    }
  }

  /** A field a report leaves blank keeps its value in the replay. */
  lemma UnreportedStays(seen: Scalars, now: Scalars, d: Device, fields: set<Field>, f: Field)
    requires Incoming(d, f) == "" && f in fields && Replay(now, Diff(seen, d), fields).Some?
    ensures Get(Replay(now, Diff(seen, d), fields).value, f) == Get(now, f)
  {
    DiffIsDiffOver(seen, d);
    DiffOverReplays(seen, now, d, ORDER, fields);
    EveryFieldIsOrdered(f);
  }

  /** When the events about `f` tell what the update does to it; the guards a caller can check. */
  ghost predicate Faithful(ex: Scalars, d: Device, collected: bool, f: Field) {
    match f
    case DeviceType => d.kind != "" || ex.kind == ""
    case OsName =>
      d.os.Some? ==> if collected then d.os.value.name != "" || ex.osName == ""
                     else d.os.value.name == "" || d.os.value.name == ex.osName
    case OsVersion =>
      d.os.Some? ==> if collected then d.os.value.version != "" || ex.osVersion == ""
                     else d.os.value.version == "" || d.os.value.version == ex.osVersion
    case _ => true
  }

  /** Replaying one update's events gives the stored value of a field exactly when it is faithful. */
  lemma ReplayOneUpdateIff(t: Tables, u: Upsert, id: Id, after: Tables, f: Field)
    requires Lands(t, u, Some(id), after)
    ensures id in after.devices && Replay(ScalarsOf(t, id), Diff(ScalarsOf(t, id), u.device), {f}).Some?
    ensures Get(Replay(ScalarsOf(t, id), Diff(ScalarsOf(t, id), u.device), {f}).value, f)
            == Get(ScalarsOf(after, id), f)
            <==> Faithful(ScalarsOf(t, id), u.device, u.collected, f)
  {
    DiffReplays(ScalarsOf(t, id), u.device, {f});
    assert f in {f};
  }

  // ---- Runs ----

  /** One call of the upsert in a run: a commit of something `sent`, or a rollback. */
  ghost predicate Step(t: Tables, after: Tables, sent: Upsert -> bool) {
    after == t ||
    exists u: Upsert, target: Option<Id> :: sent(u) && u.newId !in t.devices && Commits(t, u, target, after)
  }

  ghost predicate IsRun(history: seq<Tables>, sent: Upsert -> bool) {
    && |history| > 0
    && history[0] == EMPTY_TABLES
    && forall i :: 0 <= i < |history| - 1 ==> Step(history[i], history[i + 1], sent)
  }

  lemma RunOneMore(history: seq<Tables>, after: Tables, sent: Upsert -> bool)
    requires IsRun(history, sent) && Step(history[|history| - 1], after, sent)
    ensures IsRun(history + [after], sent)
  {
    var longer := history + [after];
    forall i | 0 <= i < |longer| - 1
      ensures Step(longer[i], longer[i + 1], sent)
    {
      if i < |history| - 1 {
        assert Step(history[i], history[i + 1], sent);
      }
    }
  }

  lemma {:induction false} RunIsConsistent(history: seq<Tables>, sent: Upsert -> bool, i: nat)
    requires IsRun(history, sent) && i < |history|
    ensures Consistent(history[i])
  {
    if i > 0 {
      RunIsConsistent(history, sent, i - 1);
      assert Step(history[i - 1], history[i], sent);
      if history[i] != history[i - 1] {
        var u: Upsert, target: Option<Id> :|
          sent(u) && u.newId !in history[i - 1].devices && Commits(history[i - 1], u, target, history[i]);
        UpsertKeepsConsistent(history[i - 1], u, target, history[i]);
      }
    }
  }

  /** The events a commit appends about `id`. */
  function NewEvents(t: Tables, u: Upsert, target: Option<Id>, id: Id): seq<Change>
    requires target.Some? ==> target.value in t.devices
  {
    if target == Some(id) then ChangesOf(t, u.device, target) else []
  }

  lemma CommitAppendsEvents(t: Tables, u: Upsert, target: Option<Id>, after: Tables, id: Id)
    requires Lands(t, u, target, after)
    ensures EventsOf(after.log, id) == EventsOf(t.log, id) + NewEvents(t, u, target, id)
  {
    var hit := if target.Some? then target.value else u.newId;
    var changes := ChangesOf(t, u.device, target);
    EventsOfAppend(t.log, LogRows(hit, u.run, changes), id);
    EventsOfLogRows(hit, u.run, changes, id);
  }

  lemma OthersKeepScalars(t: Tables, u: Upsert, target: Option<Id>, after: Tables, id: Id)
    requires Lands(t, u, target, after)
    requires id in t.devices && id != if target.Some? then target.value else u.newId
    ensures id in after.devices && ScalarsOf(after, id) == ScalarsOf(t, id)
  {
  }

  /** The update is faithful in all of `fields`. */
  ghost predicate FaithfulIn(ex: Scalars, u: Upsert, fields: set<Field>) {
    forall f :: f in fields ==> Faithful(ex, u.device, u.collected, f)
  }

  lemma UpdateReplaysIff(t: Tables, u: Upsert, id: Id, after: Tables, fields: set<Field>)
    requires Lands(t, u, Some(id), after)
    ensures id in after.devices
    ensures var r := Replay(ScalarsOf(t, id), Diff(ScalarsOf(t, id), u.device), fields);
            r.Some? && (AgreeOn(fields, r.value, ScalarsOf(after, id)) <==> FaithfulIn(ScalarsOf(t, id), u, fields))
  {
    var ex := ScalarsOf(t, id);
    DiffReplays(ex, u.device, fields);
    forall f | f in fields
      ensures Get(Replay(ex, Diff(ex, u.device), fields).value, f) == Get(ScalarsOf(after, id), f)
              <==> Faithful(ex, u.device, u.collected, f)
    {
      ReplayOneUpdateIff(t, u, id, after, f);
      DiffReplays(ex, u.device, {f});
      assert f in {f};
    }
  }

  /** The new events about `id` lead from its scalars before the commit to those after it, exactly when the
      commit is about another device or faithful. */
  lemma StepExtendsTimelineIff(t: Tables, u: Upsert, target: Option<Id>, after: Tables, id: Id, fields: set<Field>)
    requires Lands(t, u, target, after) && id in t.devices && u.newId !in t.devices
    ensures id in after.devices
    ensures var r := Replay(ScalarsOf(t, id), NewEvents(t, u, target, id), fields);
            r.Some? && (AgreeOn(fields, r.value, ScalarsOf(after, id))
                        <==> (target == Some(id) ==> FaithfulIn(ScalarsOf(t, id), u, fields)))
  {
    if target == Some(id) {
      UpdateReplaysIff(t, u, id, after, fields);
    } else {
      OthersKeepScalars(t, u, target, after, id);
    }
  }

  /** The events about `id` so far lead from its scalars at birth to the stored ones. */
  ghost predicate Explains(birth: Scalars, t: Tables, id: Id, fields: set<Field>) {
    && id in t.devices
    && var r := Replay(birth, EventsOf(t.log, id), fields);
    && r.Some? && AgreeOn(fields, r.value, ScalarsOf(t, id))
  }

  /** Replaying on from where earlier events lead. */
  lemma ReplayJoins(birth: Scalars, past: seq<Change>, mid: Scalars, added: seq<Change>, fields: set<Field>)
    requires Replay(birth, past, fields).Some? && AgreeOn(fields, Replay(birth, past, fields).value, mid)
    ensures var r, q := Replay(birth, past + added, fields), Replay(mid, added, fields);
            r.Some? == q.Some? && (r.Some? ==> AgreeOn(fields, r.value, q.value))
  {
    ReplayAppend(birth, past, added, fields);
    ReplayAgrees(Replay(birth, past, fields).value, mid, added, fields);
  }

  lemma CommitExplainsIff(
      birth: Scalars, t: Tables, u: Upsert, target: Option<Id>, after: Tables, id: Id, fields: set<Field>)
    requires Lands(t, u, target, after) && u.newId !in t.devices && Explains(birth, t, id, fields)
    ensures Explains(birth, after, id, fields) <==> (target == Some(id) ==> FaithfulIn(ScalarsOf(t, id), u, fields))
  {
    CommitAppendsEvents(t, u, target, after, id);
    StepExtendsTimelineIff(t, u, target, after, id, fields);
    ReplayJoins(birth, EventsOf(t.log, id), ScalarsOf(t, id), NewEvents(t, u, target, id), fields);
  }

  /** Whatever commit about `id` the step was, it is faithful. */
  ghost predicate StepFaithful(t: Tables, after: Tables, sent: Upsert -> bool, id: Id, fields: set<Field>) {
    forall u: Upsert :: id in t.devices && sent(u) && u.newId !in t.devices && Commits(t, u, Some(id), after) ==>
      FaithfulIn(ScalarsOf(t, id), u, fields)
  }

  lemma StepExplainsIff(birth: Scalars, t: Tables, after: Tables, sent: Upsert -> bool, id: Id, fields: set<Field>)
    requires Step(t, after, sent) && Explains(birth, t, id, fields)
    ensures Explains(birth, after, id, fields) <==> StepFaithful(t, after, sent, id, fields)
  {
    if Explains(birth, after, id, fields) {
      forall u | sent(u) && u.newId !in t.devices && Commits(t, u, Some(id), after)
        ensures FaithfulIn(ScalarsOf(t, id), u, fields)
      {
        CommitExplainsIff(birth, t, u, Some(id), after, id, fields);
      }
    } else {
      var u: Upsert, target: Option<Id> :| sent(u) && u.newId !in t.devices && Commits(t, u, target, after);
      CommitExplainsIff(birth, t, u, target, after, id, fields);
    }
  }

  /** In every state from `first` to `last` the device is explained. */
  ghost predicate AlwaysExplained(
      history: seq<Tables>, birth: Scalars, id: Id, fields: set<Field>, first: nat, last: nat)
    requires last < |history|
  {
    forall m :: first <= m <= last ==> Explains(birth, history[m], id, fields)
  }

  /** Every commit about the device from `first` up to `last` is faithful. */
  ghost predicate AlwaysFaithful(
      history: seq<Tables>, sent: Upsert -> bool, id: Id, fields: set<Field>, first: nat, last: nat)
    requires last < |history|
  {
    forall m :: first <= m < last ==> StepFaithful(history[m], history[m + 1], sent, id, fields)
  }

  /** An explained device stays explained over step `m` exactly when the step is faithful. */
  ghost predicate StaysExplainedIff(
      history: seq<Tables>, sent: Upsert -> bool, birth: Scalars, id: Id, fields: set<Field>, m: nat)
    requires m + 1 < |history|
  {
    Explains(birth, history[m], id, fields) ==>
      (Explains(birth, history[m + 1], id, fields) <==> StepFaithful(history[m], history[m + 1], sent, id, fields))
  }

  lemma {:induction false} FaithfulMeansExplained(
      history: seq<Tables>, sent: Upsert -> bool, birth: Scalars, id: Id, fields: set<Field>, first: nat, last: nat)
    requires first <= last < |history| && Explains(birth, history[first], id, fields)
    requires forall m :: first <= m < last ==> StaysExplainedIff(history, sent, birth, id, fields, m)
    requires AlwaysFaithful(history, sent, id, fields, first, last)
    ensures AlwaysExplained(history, birth, id, fields, first, last)
    decreases last
  {
    if first < last {
      FaithfulMeansExplained(history, sent, birth, id, fields, first, last - 1);
      assert StaysExplainedIff(history, sent, birth, id, fields, last - 1);
    }
  }

  lemma ExplainedMeansFaithful(
      history: seq<Tables>, sent: Upsert -> bool, birth: Scalars, id: Id, fields: set<Field>, first: nat, last: nat)
    requires first <= last < |history|
    requires forall m :: first <= m < last ==> StaysExplainedIff(history, sent, birth, id, fields, m)
    requires AlwaysExplained(history, birth, id, fields, first, last)
    ensures AlwaysFaithful(history, sent, id, fields, first, last)
  {
    forall m | first <= m < last
      ensures StepFaithful(history[m], history[m + 1], sent, id, fields)
    {
      assert StaysExplainedIff(history, sent, birth, id, fields, m);
    }
  }

  /**
   The timeline theorem.  Over any run of serial upserts, take a device, the state in which it was inserted
   (`i + 1`) and any later one (`j`): its events replay over its values at insertion to its stored values,
   in every state up to `j`, exactly when every commit about it in between was faithful.
   */
  lemma TimelinesIff(history: seq<Tables>, sent: Upsert -> bool, fields: set<Field>, id: Id, i: nat, j: nat)
    requires IsRun(history, sent)
    requires i < j < |history| && id !in history[i].devices && id in history[i + 1].devices
    ensures AlwaysExplained(history, ScalarsOf(history[i + 1], id), id, fields, i + 1, j)
            <==> AlwaysFaithful(history, sent, id, fields, i + 1, j)
  {
    var birth := ScalarsOf(history[i + 1], id);
    BirthHasNoEvents(history, sent, id, i);
    forall m | i + 1 <= m < j
      ensures StaysExplainedIff(history, sent, birth, id, fields, m)
    {
      if Explains(birth, history[m], id, fields) {
        StepExplainsIff(birth, history[m], history[m + 1], sent, id, fields);
      }
    }
    if AlwaysFaithful(history, sent, id, fields, i + 1, j) {
      FaithfulMeansExplained(history, sent, birth, id, fields, i + 1, j);
    } else if AlwaysExplained(history, birth, id, fields, i + 1, j) {
      ExplainedMeansFaithful(history, sent, birth, id, fields, i + 1, j);
    }
  }

  /** What a sender must guarantee, call by call, for the timeline of `fields` to be faithful. */
  ghost predicate SendsFaithfully(u: Upsert, fields: set<Field>) {
    && (DeviceType in fields ==> u.device.kind != "")
    && (OsName in fields && u.device.os.Some? ==> u.collected && u.device.os.value.name != "")
    && (OsVersion in fields && u.device.os.Some? ==> u.collected && u.device.os.value.version != "")
  }

  lemma FaithfulWhenSent(ex: Scalars, u: Upsert, fields: set<Field>)
    requires SendsFaithfully(u, fields)
    ensures FaithfulIn(ex, u, fields)
  {
  }

  lemma SentFaithfully(t: Tables, after: Tables, sent: Upsert -> bool, id: Id, fields: set<Field>)
    requires forall u :: sent(u) ==> SendsFaithfully(u, fields)
    ensures StepFaithful(t, after, sent, id, fields)
  {
    forall u: Upsert | id in t.devices && sent(u)
      ensures FaithfulIn(ScalarsOf(t, id), u, fields)
    {
      FaithfulWhenSent(ScalarsOf(t, id), u, fields);
    }
  }

  /** Such a sender is always faithful, so every event's old value is the value just before it and differs
      from the new one, and the replay agrees with the stored scalars. */
  lemma TimelineReplays(history: seq<Tables>, sent: Upsert -> bool, fields: set<Field>, id: Id, i: nat, j: nat)
    requires IsRun(history, sent)
    requires forall u :: sent(u) ==> SendsFaithfully(u, fields)
    requires i < j < |history| && id !in history[i].devices && id in history[i + 1].devices
    ensures id in history[j].devices
    ensures var r := Replay(ScalarsOf(history[i + 1], id), EventsOf(history[j].log, id), fields);
            r.Some? && AgreeOn(fields, r.value, ScalarsOf(history[j], id))
  {
    TimelinesIff(history, sent, fields, id, i, j);
    forall m | i < m < j
      ensures StepFaithful(history[m], history[m + 1], sent, id, fields)
    {
      SentFaithfully(history[m], history[m + 1], sent, id, fields);
    }
    assert Explains(ScalarsOf(history[i + 1], id), history[j], id, fields);
  }

  lemma BirthHasNoEvents(history: seq<Tables>, sent: Upsert -> bool, id: Id, i: nat)
    requires IsRun(history, sent) && i + 1 < |history|
    requires id !in history[i].devices && id in history[i + 1].devices
    ensures EventsOf(history[i + 1].log, id) == []
  {
    var t, after := history[i], history[i + 1];
    RunIsConsistent(history, sent, i);
    assert Step(t, after, sent);
    var u: Upsert, target: Option<Id> :| sent(u) && u.newId !in t.devices && Commits(t, u, target, after);
    CommitAppendsEvents(t, u, target, after, id);
    NoEventsBefore(t.log, id);
    InsertHasNoEvents(t, u, target, after, id);
  }

  /** Only the inserting commit makes an id appear, and it reports no changes. */
  lemma InsertHasNoEvents(t: Tables, u: Upsert, target: Option<Id>, after: Tables, id: Id)
    requires Lands(t, u, target, after) && id !in t.devices && id in after.devices
    ensures target == None && NewEvents(t, u, target, id) == []
  {
  }

  // ---- Why the guards are there: concrete stores where the timeline goes wrong ----

  const ONE_HOST := EMPTY_TABLES.(
    devices := map[0 := DeviceRow("linux", None, None, Some("S"), None, None, None, 0, 0, 0)],
    os := map[0 := OsRow(None, Some("NixOS"), None, None, None)])

  /** A collected report about the device with serial S. */
  function Report(kind: string, osName: string): Upsert {
    Upsert(Device(kind, "", "", "S", "", "", "", [], Some(OsInfo("", osName, "", "", "")), None, [], []), "", true,
        1, 1)
  }

  lemma OneHostResolves(u: Upsert)
    requires u == Report("", "NixOS") || u == Report("linux", "")
    ensures WriteFailure(ONE_HOST, u, Some(0)) == None
    ensures Commits(ONE_HOST, u, Some(0), Upserted(ONE_HOST, u, Some(0)))
  {
    assert 0 in Candidates(ONE_HOST, u.device, 0);
    assert ResolvesAt(ONE_HOST, u.device, 0, Some(0));
    assert MacsOf(u.device.interfaces) == [];
  }

  /** An empty device type is written over the stored one without any event. */
  lemma BlankKindIsNotLogged()
    ensures var u := Report("", "NixOS");
            && WriteFailure(ONE_HOST, u, Some(0)) == None
            && var after := Upserted(ONE_HOST, u, Some(0));
            && Commits(ONE_HOST, u, Some(0), after)
            && ChangesOf(ONE_HOST, u.device, Some(0)) == []
            && after.devices[0].kind == "" != ONE_HOST.devices[0].kind
  {
    OneHostResolves(Report("", "NixOS"));
  }

  /** A blank OS name overwrites the stored one with NULL without any event. */
  lemma BlankOsNameIsNotLogged()
    ensures var u := Report("linux", "");
            && WriteFailure(ONE_HOST, u, Some(0)) == None
            && var after := Upserted(ONE_HOST, u, Some(0));
            && Commits(ONE_HOST, u, Some(0), after)
            && ChangesOf(ONE_HOST, u.device, Some(0)) == []
            && after.os[0].name == None != ONE_HOST.os[0].name
  {
    OneHostResolves(Report("linux", ""));
  }

  // ---- Information only grows ----

  ghost predicate StaysSet(a: Option<string>, b: Option<string>) {
    a.Some? ==> b.Some?
  }

  ghost predicate RowGrows(a: DeviceRow, b: DeviceRow) {
    && StaysSet(a.hostname, b.hostname) && StaysSet(a.primaryIp, b.primaryIp) && StaysSet(a.serial, b.serial)
    && StaysSet(a.assetTag, b.assetTag) && StaysSet(a.adGuid, b.adGuid) && StaysSet(a.source, b.source)
    && (a.kind != UNKNOWN ==> b.kind != UNKNOWN)
    && a.firstSeen == b.firstSeen
  }

  ghost predicate Grows(a: Tables, b: Tables) {
    && a.devices.Keys <= b.devices.Keys
    && (forall id :: id in a.devices ==> RowGrows(a.devices[id], b.devices[id]))
    && a.os.Keys <= b.os.Keys
    && a.hardware.Keys <= b.hardware.Keys
    && a.log <= b.log
  }

  lemma UpsertGrows(t: Tables, u: Upsert, target: Option<Id>, after: Tables)
    requires u.newId !in t.devices && Lands(t, u, target, after)
    ensures Grows(t, after)
  {
  }

  /** Over any run no device, no set scalar, no known type, no side row and no event is ever lost. */
  lemma {:induction false} RunGrows(history: seq<Tables>, sent: Upsert -> bool, i: nat, j: nat)
    requires IsRun(history, sent) && i <= j < |history|
    ensures Grows(history[i], history[j])
    decreases j
  {
    if i < j {
      RunGrows(history, sent, i, j - 1);
      var t, after := history[j - 1], history[j];
      assert Step(t, after, sent);
      if after != t {
        var u: Upsert, target: Option<Id> :| sent(u) && u.newId !in t.devices && Commits(t, u, target, after);
        UpsertGrows(t, u, target, after);
      }
      forall id | id in history[i].devices
        ensures id in after.devices && RowGrows(history[i].devices[id], after.devices[id])
      {
        assert RowGrows(history[i].devices[id], t.devices[id]);
      }
    }
  }

  /** A pass that collected nothing leaves every child and side table as it was, and so every other
      device's rows in any pass. */
  lemma ShallowPassKeepsChildren(t: Tables, u: Upsert, target: Option<Id>, after: Tables, id: Id)
    requires Lands(t, u, target, after)
    ensures !u.collected ==>
              && after.interfaces == t.interfaces && after.software == t.software && after.users == t.users
              && after.os == t.os && after.hardware == t.hardware
    ensures u.collected && id != (if target.Some? then target.value else u.newId) ==>
              && RowsOf(after.interfaces, id) == RowsOf(t.interfaces, id)
              && RowsOf(after.software, id) == RowsOf(t.software, id)
              && RowsOf(after.users, id) == RowsOf(t.users, id)
              && (id in after.os <==> id in t.os) && (id in t.os ==> after.os[id] == t.os[id])
              && (id in after.hardware <==> id in t.hardware)
                  && (id in t.hardware ==> after.hardware[id] == t.hardware[id])
  {
  }

  /** Every OS event of a collected upsert has its new value in os_info when it commits. */
  lemma OsEventsAreStored(t: Tables, u: Upsert, id: Id, after: Tables, e: Change)
    requires Lands(t, u, Some(id), after) && u.collected
    requires e in ChangesOf(t, u.device, Some(id)) && (e.field == OsName || e.field == OsVersion)
    ensures id in after.os
    ensures Some(e.after) == if e.field == OsName then after.os[id].name else after.os[id].version
  {
    OsChangesAreReported(ScalarsOf(t, id), u.device, e);
  }

  lemma OsChangesAreReported(ex: Scalars, d: Device, e: Change)
    requires e in Diff(ex, d) && (e.field == OsName || e.field == OsVersion)
    ensures d.os.Some? && e.after != ""
    ensures e.after == if e.field == OsName then d.os.value.name else d.os.value.version
  {
    var scalars := AddChange(Hostname, ex.hostname, d.hostname) + AddChange(PrimaryIp, ex.primaryIp, d.primaryIp)
      + AddChange(Serial, ex.serial, d.serial)
      + (if d.kind != "" && d.kind != UNKNOWN then AddChange(DeviceType, ex.kind, d.kind) else []);
    assert e !in scalars;
    assert d.os.Some?;
  }
}
