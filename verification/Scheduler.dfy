/**
 The scheduler: a due snapshot, then for each entry an advance of the schedule and only then its scan.
 The database clock never runs backwards, any amount of time may pass, other sessions may add and delete
 targets and schedules before every statement, and any statement may fail, also after it took effect.
 */
module Scheduler {
  import opened Wrappers
  import Inventory
  import opened Schedules

  // ---- One statement after another ----

  /** What surrounds statement `n`: how long it takes, whether it fails, whether one that fails takes effect all
      the same, its reply being lost, and what other sessions do before it. */
  datatype Env = Env(pace: nat -> nat, fails: nat -> bool, lands: nat -> bool, edits: nat -> seq<Edit>)

  datatype State = State(tables: Tables, clock: int, statement: nat, log: seq<Event>)

  predicate TakesEffect(env: Env, n: nat) {
    !env.fails(n) || env.lands(n)
  }

  /** A statement is sent: time passes, and other sessions get their turn. */
  function Spent(env: Env, s: State): State {
    var clock := s.clock + env.pace(s.statement);
    State(EditedAll(s.tables, env.edits(s.statement), clock), clock, s.statement + 1, s.log)
  }

  /** A statement that changes the tables as a statement of another session would. */
  function Sent(env: Env, s: State, e: Edit): State {
    var met := Spent(env, s);
    if TakesEffect(env, s.statement) then met.(tables := Edited(met.tables, e, met.clock)) else met
  }

  /** AdvanceSchedule; an id that never was a schedule's has no row and no history. */
  function Advance(env: Env, s: State, id: ScheduleId, intervalSecs: int): State {
    var met := Spent(env, s);
    if !TakesEffect(env, s.statement) || id !in met.tables.created then met
    else
      met.(tables := Pushed(met.tables, id, met.clock, intervalSecs),
           log := met.log + [Advanced(id, met.clock, intervalSecs, id in met.tables.schedules)])
  }

  /** A scan runs to its end, well or badly. */
  function Scan(env: Env, s: State, id: ScheduleId): State {
    var met := Spent(env, s);
    met.(log := met.log + [ScanStarted(id), ScanFinished(id)])
  }

  /** One entry of the snapshot: advance first, and only when that did not fail scan what has addresses. */
  function Entry(env: Env, s: State, e: Due): State {
    var advanced := Advance(env, s, e.id, e.intervalSecs);
    if !env.fails(s.statement) && e.cidrs != [] then Scan(env, advanced, e.id) else advanced
  }

  /** The first `k` entries. */
  function Entries(env: Env, s: State, due: seq<Due>, k: nat): State
    requires k <= |due|
  {
    if k == 0 then s else Entry(env, Entries(env, s, due, k - 1), due[k - 1])
  }

  /** Once the due schedules and the credentials are listed. */
  function Ready(env: Env, s: State): State {
    Spent(env, Spent(env, s))
  }

  /** The tick reaches its loop. */
  predicate Loops(env: Env, s: State, due: seq<Due>) {
    !env.fails(s.statement) && due != [] && !env.fails(s.statement + 1)
  }

  /** One tick whose snapshot, if it got one, is `due`. */
  function Tick(env: Env, s: State, due: seq<Due>): State {
    if env.fails(s.statement) || due == [] then Spent(env, s)
    else if env.fails(s.statement + 1) then Ready(env, s)
    else Entries(env, Ready(env, s), due, |due|)
  }

  /** `due` is what the tick's first query returned, unless it failed. */
  ghost predicate Lists(env: Env, s: State, due: seq<Due>) {
    !env.fails(s.statement) ==> IsSnapshot(Spent(env, s).tables, Spent(env, s).clock, due)
  }

  // ---- What always holds ----

  ghost predicate Good(s: State) {
    Spaced(s.log) && Bracketed(s.log) && TableOk(s.tables, s.log)
  }

  /** Some statement from `first` up to `last` let another session drop the target. */
  ghost predicate Dropped(edits: nat -> seq<Edit>, target: TargetId, first: nat, last: nat) {
    exists n: nat :: first <= n < last && DropTarget(target) in edits(n)
  }

  lemma DroppedOneMore(edits: nat -> seq<Edit>, target: TargetId, first: nat, last: nat)
    requires first <= last
    ensures Dropped(edits, target, first, last + 1)
            <==> Dropped(edits, target, first, last) || DropTarget(target) in edits(last)
  {
  }

  /** The schedules of `a` that are gone in `b` are those whose target was dropped in between. */
  ghost predicate GoneIffDropped(env: Env, a: State, b: State) {
    forall id :: id in a.tables.schedules ==>
      (id !in b.tables.schedules
       <==> Dropped(env.edits, a.tables.schedules[id].target, a.statement, b.statement))
  }

  ghost predicate Follows(env: Env, a: State, b: State) {
    a.statement <= b.statement && a.clock <= b.clock && Later(a.tables, b.tables) && GoneIffDropped(env, a, b)
  }

  /** What a schedule's deletion comes down to: other sessions drop its target. */
  lemma {:induction false} GoneIff(t: Tables, log: seq<Event>, edits: seq<Edit>, now: int, id: ScheduleId)
    requires TableOk(t, log) && id in t.schedules
    ensures id !in EditedAll(t, edits, now).schedules <==> DropTarget(t.schedules[id].target) in edits
  {
    if edits != [] {
      var n := |edits| - 1;
      GoneIff(t, log, edits[..n], now, id);
      EditsKeepTable(t, log, edits[..n], now);
      assert edits == edits[..n] + [edits[n]];
    }
  }

  lemma FollowsItself(env: Env, s: State)
    requires Good(s)
    ensures Follows(env, s, s)
  {
  }

  lemma SpentKeepsGood(env: Env, s: State)
    requires Good(s)
    ensures Good(Spent(env, s)) && Later(s.tables, Spent(env, s).tables)
  {
    EditsKeepTable(s.tables, s.log, env.edits(s.statement), Spent(env, s).clock);
  }

  lemma SpentDrops(env: Env, a: State, s: State, id: ScheduleId)
    requires Good(a) && Good(s) && Follows(env, a, s) && id in a.tables.schedules
    ensures id !in Spent(env, s).tables.schedules
            <==> Dropped(env.edits, a.tables.schedules[id].target, a.statement, s.statement + 1)
  {
    var target := a.tables.schedules[id].target;
    DroppedOneMore(env.edits, target, a.statement, s.statement);
    SpentKeepsGood(env, s);
    if id in s.tables.schedules {
      GoneIff(s.tables, s.log, env.edits(s.statement), Spent(env, s).clock, id);
    }
  }

  lemma SpentFollows(env: Env, a: State, s: State)
    requires Good(a) && Good(s) && Follows(env, a, s)
    ensures Good(Spent(env, s)) && Follows(env, a, Spent(env, s))
  {
    SpentKeepsGood(env, s);
    LaterTransitive(a.tables, s.tables, Spent(env, s).tables);
    forall id | id in a.tables.schedules {
      SpentDrops(env, a, s, id);
    }
  }

  lemma AdvanceKeepsTable(t: Tables, log: seq<Event>, id: ScheduleId, at: int, intervalSecs: int)
    requires TableOk(t, log) && id in t.created
    ensures TableOk(Pushed(t, id, at, intervalSecs), log + [Advanced(id, at, intervalSecs, id in t.schedules)])
  {
    LogOne(log, Advanced(id, at, intervalSecs, id in t.schedules));
  }

  /** An advance keeps everything in order exactly when it does nothing or the schedule's time has come again. */
  lemma AdvanceKeepsGoodIff(env: Env, s: State, id: ScheduleId, intervalSecs: int)
    requires Good(s)
    ensures Good(Advance(env, s, id, intervalSecs))
            <==> !TakesEffect(env, s.statement) || id !in Spent(env, s).tables.created
                 || Ripe(s.log, id, Spent(env, s).clock)
    ensures TableOk(Advance(env, s, id, intervalSecs).tables, Advance(env, s, id, intervalSecs).log)
  {
    var met := Spent(env, s);
    SpentKeepsGood(env, s);
    if TakesEffect(env, s.statement) && id in met.tables.created {
      var e := Advanced(id, met.clock, intervalSecs, id in met.tables.schedules);
      LogOne(s.log, e);
      BracketedAdvance(s.log, e);
      AdvanceKeepsTable(met.tables, s.log, id, met.clock, intervalSecs);
    }
  }

  lemma PushedIsLater(a: Tables, t: Tables, id: ScheduleId, at: int, intervalSecs: int)
    requires Later(a, t)
    ensures Later(a, Pushed(t, id, at, intervalSecs))
    ensures Pushed(t, id, at, intervalSecs).schedules.Keys == t.schedules.Keys
  {
  }

  lemma AdvanceFollows(env: Env, a: State, s: State, id: ScheduleId, intervalSecs: int)
    requires Good(a) && Good(s) && Follows(env, a, s)
    ensures Follows(env, a, Advance(env, s, id, intervalSecs))
  {
    var met := Spent(env, s);
    SpentFollows(env, a, s);
    PushedIsLater(a.tables, met.tables, id, met.clock, intervalSecs);
  }

  lemma ScanKeeps(t: Tables, log: seq<Event>, id: ScheduleId)
    requires TableOk(t, log) && Spaced(log)
    ensures TableOk(t, log + [ScanStarted(id), ScanFinished(id)]) && Spaced(log + [ScanStarted(id), ScanFinished(id)])
  {
    LogOne(log, ScanStarted(id));
    LogOne(log + [ScanStarted(id)], ScanFinished(id));
    assert log + [ScanStarted(id)] + [ScanFinished(id)] == log + [ScanStarted(id), ScanFinished(id)];
  }

  lemma ScanFollows(env: Env, a: State, s: State, id: ScheduleId)
    requires Good(a) && Good(s) && Follows(env, a, s)
    requires s.log != [] && AdvanceOf(s.log[|s.log| - 1], id)
    ensures Good(Scan(env, s, id)) && Follows(env, a, Scan(env, s, id))
  {
    SpentFollows(env, a, s);
    ScanKeeps(Spent(env, s).tables, s.log, id);
    BracketedScan(s.log, id);
  }

  /** What a snapshot entry needs to be advanced: the database handed it out, and its time has come. */
  ghost predicate MayAdvance(s: State, e: Due) {
    e.id in s.tables.created && Ripe(s.log, e.id, s.clock)
  }

  lemma EntryFollows(env: Env, a: State, s: State, e: Due)
    requires Good(a) && Good(s) && Follows(env, a, s) && MayAdvance(s, e)
    ensures Good(Entry(env, s, e)) && Follows(env, a, Entry(env, s, e))
  {
    var advanced := Advance(env, s, e.id, e.intervalSecs);
    SpentKeepsGood(env, s);
    AdvanceKeepsGoodIff(env, s, e.id, e.intervalSecs);
    AdvanceFollows(env, a, s, e.id, e.intervalSecs);
    if !env.fails(s.statement) && e.cidrs != [] {
      ScanFollows(env, a, advanced, e.id);
    }
  }

  lemma EarliestAfterAdvance(env: Env, s: State, id: ScheduleId, intervalSecs: int, other: ScheduleId)
    requires id in Spent(env, s).tables.created
    ensures Earliest(Advance(env, s, id, intervalSecs).log, other)
            == if other == id && TakesEffect(env, s.statement) then
                 Some(Spent(env, s).clock + intervalSecs * SECOND)
               else Earliest(s.log, other)
  {
    LogOne(s.log, Advanced(id, Spent(env, s).clock, intervalSecs, id in Spent(env, s).tables.schedules));
  }

  lemma ScanLeavesEarliest(env: Env, s: State, id: ScheduleId, other: ScheduleId)
    ensures Earliest(Scan(env, s, id).log, other) == Earliest(s.log, other)
  {
    LogOne(s.log, ScanStarted(id));
    LogOne(s.log + [ScanStarted(id)], ScanFinished(id));
    assert s.log + [ScanStarted(id)] + [ScanFinished(id)] == s.log + [ScanStarted(id), ScanFinished(id)];
  }

  /** The time at which a schedule may be advanced again after one entry. */
  lemma EarliestAfterEntry(env: Env, s: State, e: Due, id: ScheduleId)
    requires Good(s) && MayAdvance(s, e)
    ensures Earliest(Entry(env, s, e).log, id)
            == if id == e.id && TakesEffect(env, s.statement) then
                 Some(Spent(env, s).clock + e.intervalSecs * SECOND)
               else Earliest(s.log, id)
  {
    SpentKeepsGood(env, s);
    EarliestAfterAdvance(env, s, e.id, e.intervalSecs, id);
    ScanLeavesEarliest(env, Advance(env, s, e.id, e.intervalSecs), e.id, id);
  }

  ghost predicate AllMayAdvance(s: State, due: seq<Due>, first: nat) {
    forall i :: first <= i < |due| ==> MayAdvance(s, due[i])
  }

  lemma StillMayAdvance(env: Env, s: State, due: seq<Due>, k: nat)
    requires Good(s) && 0 < k <= |due| && DistinctIds(due) && AllMayAdvance(s, due, k - 1)
    requires Follows(env, s, Entry(env, s, due[k - 1]))
    ensures AllMayAdvance(Entry(env, s, due[k - 1]), due, k)
  {
    forall i | k <= i < |due|
      ensures MayAdvance(Entry(env, s, due[k - 1]), due[i])
    {
      EarliestAfterEntry(env, s, due[k - 1], due[i].id);
    }
  }

  /** The loop is about to handle entry `k` in `s`, in order and later than `a`. */
  ghost predicate InLoop(env: Env, a: State, s: State, due: seq<Due>, k: nat) {
    Good(a) && Good(s) && Follows(env, a, s) && DistinctIds(due) && AllMayAdvance(s, due, k)
  }

  lemma NextEntryFollows(env: Env, a: State, s: State, due: seq<Due>, k: nat)
    requires 0 < k <= |due| && InLoop(env, a, s, due, k - 1)
    ensures InLoop(env, a, Entry(env, s, due[k - 1]), due, k)
  {
    EntryFollows(env, a, s, due[k - 1]);
    FollowsItself(env, s);
    EntryFollows(env, s, s, due[k - 1]);
    StillMayAdvance(env, s, due, k);
  }

  lemma {:induction false} EntriesFollow(env: Env, a: State, s: State, due: seq<Due>, k: nat)
    requires InLoop(env, a, s, due, 0) && k <= |due|
    ensures InLoop(env, a, Entries(env, s, due, k), due, k)
  {
    if k > 0 {
      EntriesFollow(env, a, s, due, k - 1);
      NextEntryFollows(env, a, Entries(env, s, due, k - 1), due, k);
    }
  }

  /** The loop starts in order, and later than the snapshot. */
  lemma ReadyFollows(env: Env, s: State, due: seq<Due>)
    requires Good(s) && IsSnapshot(Spent(env, s).tables, Spent(env, s).clock, due)
    ensures InLoop(env, Spent(env, s), Ready(env, s), due, 0)
  {
    var seen := Spent(env, s);
    SpentKeepsGood(env, s);
    FollowsItself(env, seen);
    SpentFollows(env, seen, seen);
    forall i | 0 <= i < |due|
      ensures MayAdvance(Ready(env, s), due[i])
    {
      assert IsDue(seen.tables, due[i].id, seen.clock);
    }
  }

  /** A tick keeps everything in order, whatever fails and whatever other sessions do; the schedules gone since
      its snapshot are those whose target was dropped. */
  lemma TickKeepsGood(env: Env, s: State, due: seq<Due>)
    requires Good(s) && Lists(env, s, due)
    ensures Good(Tick(env, s, due)) && Follows(env, Spent(env, s), Tick(env, s, due))
  {
    SpentKeepsGood(env, s);
    FollowsItself(env, Spent(env, s));
    if !env.fails(s.statement) && due != [] {
      ReadyFollows(env, s, due);
      EntriesFollow(env, Spent(env, s), Ready(env, s), due, |due|);
    }
  }

  lemma EntryGrows(env: Env, s: State, e: Due)
    ensures s.log <= Entry(env, s, e).log && s.statement < Entry(env, s, e).statement
  {
  }

  lemma {:induction false} EntriesGrow(env: Env, s: State, due: seq<Due>, i: nat, k: nat)
    requires i <= k <= |due|
    ensures Entries(env, s, due, i).log <= Entries(env, s, due, k).log
    ensures Entries(env, s, due, i).statement <= Entries(env, s, due, k).statement
    decreases k
  {
    if i < k {
      EntriesGrow(env, s, due, i, k - 1);
      EntryGrows(env, Entries(env, s, due, k - 1), due[k - 1]);
    }
  }

  lemma TickGrows(env: Env, s: State, due: seq<Due>)
    ensures s.log <= Tick(env, s, due).log && s.statement < Tick(env, s, due).statement
  {
    EntriesGrow(env, Ready(env, s), due, 0, |due|);
  }

  /** A tick whose query for schedules or for credentials fails, or that finds nothing due, advances and scans
      nothing. */
  lemma IdleTick(env: Env, s: State, due: seq<Due>)
    requires env.fails(s.statement) || due == [] || env.fails(s.statement + 1)
    ensures Tick(env, s, due).log == s.log
  {
  }

  // ---- What a tick does to an entry ----

  /** The number of entry `k`'s UPDATE when the first entry's is `n`. */
  function NumberOf(fails: nat -> bool, due: seq<Due>, k: nat, n: nat): nat
    requires k <= |due|
  {
    if k == 0 then n
    else
      var m := NumberOf(fails, due, k - 1, n);
      if !fails(m) && due[k - 1].cidrs != [] then m + 2 else m + 1
  }

  lemma {:induction false} NumberIs(env: Env, s: State, due: seq<Due>, k: nat)
    requires k <= |due|
    ensures Entries(env, s, due, k).statement == NumberOf(env.fails, due, k, s.statement)
  {
    if k > 0 {
      NumberIs(env, s, due, k - 1);
    }
  }

  /** The entry is handled in full and its UPDATE finds no row: it is scanned all the same. */
  ghost predicate ScansUnadvanced(env: Env, s: State, e: Due) {
    Entry(env, s, e).log
    == s.log + [Advanced(e.id, Spent(env, s).clock, e.intervalSecs, false), ScanStarted(e.id), ScanFinished(e.id)]
  }

  lemma EntryEvents(env: Env, s: State, e: Due)
    requires e.id in Spent(env, s).tables.created
    ensures Entry(env, s, e).log
            == s.log
               + (if TakesEffect(env, s.statement) then
                    [Advanced(e.id, Spent(env, s).clock, e.intervalSecs, e.id in Spent(env, s).tables.schedules)]
                  else [])
               + (if !env.fails(s.statement) && e.cidrs != [] then [ScanStarted(e.id), ScanFinished(e.id)] else [])
  {
  }

  lemma ScansUnadvancedIff(env: Env, s: State, e: Due)
    requires e.id in Spent(env, s).tables.created
    ensures ScansUnadvanced(env, s, e)
            <==> !env.fails(s.statement) && e.cidrs != [] && e.id !in Spent(env, s).tables.schedules
  {
    var at := Spent(env, s).clock;
    EntryEvents(env, s, e);
    if ScansUnadvanced(env, s, e) {
      assert |Entry(env, s, e).log| == |s.log| + 3;
      assert Entry(env, s, e).log[|s.log|] == Advanced(e.id, at, e.intervalSecs, false);
    }
  }

  /** In `s`, in order and later than the snapshot taken in `seen`, the entry may be advanced. */
  ghost predicate Reached(env: Env, seen: State, s: State, e: Due) {
    && Good(seen) && Good(s) && Follows(env, seen, s) && MayAdvance(s, e)
    && IsDue(seen.tables, e.id, seen.clock) && e == EntryOf(seen.tables, e.id, seen.clock)
  }

  lemma LoopReaches(env: Env, seen: State, ready: State, due: seq<Due>, k: nat)
    requires InLoop(env, seen, ready, due, 0) && IsSnapshot(seen.tables, seen.clock, due) && k < |due|
    ensures Reached(env, seen, Entries(env, ready, due, k), due[k])
  {
    EntriesFollow(env, seen, ready, due, k);
  }

  /** Its UPDATE finds no row exactly when its target was dropped since the snapshot. */
  lemma UnfoundIffDropped(env: Env, seen: State, s: State, e: Due)
    requires Reached(env, seen, s, e)
    ensures e.id in Spent(env, s).tables.created
    ensures e.id !in Spent(env, s).tables.schedules
            <==> Dropped(env.edits, e.target, seen.statement, s.statement + 1)
  {
    SpentDrops(env, seen, s, e.id);
    SpentFollows(env, seen, s);
  }

  /** UPDATE `n` is answered, the entry has addresses, and from statement `first` up to that UPDATE another
      session drops the target. */
  ghost predicate DroppedUnnoticed(env: Env, e: Due, first: nat, n: nat) {
    !env.fails(n) && e.cidrs != [] && Dropped(env.edits, e.target, first, n + 1)
  }

  lemma ReachedScansIff(env: Env, seen: State, s: State, e: Due)
    requires Reached(env, seen, s, e)
    ensures ScansUnadvanced(env, s, e) <==> DroppedUnnoticed(env, e, seen.statement, s.statement)
  {
    UnfoundIffDropped(env, seen, s, e);
    ScansUnadvancedIff(env, s, e);
  }

  /** The tick comes to every entry. */
  lemma ReachesEntry(env: Env, s: State, due: seq<Due>, k: nat)
    requires Good(s) && Lists(env, s, due) && Loops(env, s, due) && k < |due|
    ensures Reached(env, Spent(env, s), Entries(env, Ready(env, s), due, k), due[k])
  {
    ReadyFollows(env, s, due);
    LoopReaches(env, Spent(env, s), Ready(env, s), due, k);
  }

  lemma NumberOfEntry(env: Env, s: State, due: seq<Due>, k: nat)
    requires k <= |due|
    ensures Entries(env, Ready(env, s), due, k).statement == NumberOf(env.fails, due, k, s.statement + 2)
  {
    NumberIs(env, Ready(env, s), due, k);
  }

  lemma NextEntry(env: Env, s: State, due: seq<Due>, k: nat)
    requires k < |due|
    ensures Entries(env, s, due, k + 1) == Entry(env, Entries(env, s, due, k), due[k])
  {
  }

  lemma EntryIsLoggedInLoop(env: Env, s: State, due: seq<Due>, k: nat)
    requires k < |due|
    ensures Entry(env, Entries(env, s, due, k), due[k]).log <= Entries(env, s, due, |due|).log
  {
    NextEntry(env, s, due, k);
    EntriesGrow(env, s, due, k + 1, |due|);
  }

  /** What an entry logs is part of what the tick logs. */
  lemma EntryIsLogged(env: Env, s: State, due: seq<Due>, k: nat)
    requires Loops(env, s, due) && k < |due|
    ensures Entry(env, Entries(env, Ready(env, s), due, k), due[k]).log <= Tick(env, s, due).log
  {
    EntryIsLoggedInLoop(env, Ready(env, s), due, k);
  }

  /**
   The tick starts a scan although its advance found no row exactly when the UPDATE was answered, the entry has
   addresses, and some statement after the snapshot's, up to that UPDATE, let another session drop the target.
   */
  lemma ScanWithoutAdvanceIff(env: Env, s: State, due: seq<Due>, k: nat)
    requires Good(s) && Lists(env, s, due) && Loops(env, s, due) && k < |due|
    ensures ScansUnadvanced(env, Entries(env, Ready(env, s), due, k), due[k])
            <==> DroppedUnnoticed(env, due[k], s.statement + 1, NumberOf(env.fails, due, k, s.statement + 2))
  {
    ReachesEntry(env, s, due, k);
    NumberOfEntry(env, s, due, k);
    ReachedScansIff(env, Spent(env, s), Entries(env, Ready(env, s), due, k), due[k]);
  }

  // ---- What is due after a tick ----

  lemma LeftAlone(env: Env, s: State, due: seq<Due>, k: nat, id: ScheduleId)
    requires InLoop(env, s, s, due, 0) && 0 < k <= |due| && due[k - 1].id != id
    ensures Earliest(Entries(env, s, due, k).log, id) == Earliest(Entries(env, s, due, k - 1).log, id)
  {
    EntriesFollow(env, s, s, due, k - 1);
    EarliestAfterEntry(env, Entries(env, s, due, k - 1), due[k - 1], id);
  }

  lemma {:induction false} Untouched(env: Env, s: State, due: seq<Due>, first: nat, last: nat, id: ScheduleId)
    requires InLoop(env, s, s, due, 0) && first <= last <= |due|
    requires forall i :: first <= i < last ==> due[i].id != id
    ensures Earliest(Entries(env, s, due, last).log, id) == Earliest(Entries(env, s, due, first).log, id)
    decreases last
  {
    if first < last {
      Untouched(env, s, due, first, last - 1, id);
      LeftAlone(env, s, due, last, id);
    }
  }

  /** Its UPDATE took effect at this time, or not at all. */
  function NextTurn(env: Env, s: State, e: Due): Option<int> {
    if TakesEffect(env, s.statement) then Some(Spent(env, s).clock + e.intervalSecs * SECOND) else None
  }

  lemma EarliestAtEntry(env: Env, s: State, due: seq<Due>, k: nat)
    requires InLoop(env, s, s, due, 0) && k < |due|
    ensures var next := NextTurn(env, Entries(env, s, due, k), due[k]);
            Earliest(Entries(env, s, due, k + 1).log, due[k].id)
            == if next.Some? then next else Earliest(s.log, due[k].id)
  {
    EntriesFollow(env, s, s, due, k);
    Untouched(env, s, due, 0, k, due[k].id);
    NextEntry(env, s, due, k);
    EarliestAfterEntry(env, Entries(env, s, due, k), due[k], due[k].id);
  }

  /** The latest advance of an entry's schedule after the loop is its own, if its UPDATE took effect. */
  lemma EarliestAfterLoop(env: Env, s: State, due: seq<Due>, k: nat)
    requires InLoop(env, s, s, due, 0) && k < |due|
    ensures var next := NextTurn(env, Entries(env, s, due, k), due[k]);
            Earliest(Entries(env, s, due, |due|).log, due[k].id)
            == if next.Some? then next else Earliest(s.log, due[k].id)
  {
    EarliestAtEntry(env, s, due, k);
    Untouched(env, s, due, k + 1, |due|, due[k].id);
  }

  lemma EarliestAfterTick(env: Env, s: State, due: seq<Due>, k: nat)
    requires Good(s) && Lists(env, s, due) && Loops(env, s, due) && k < |due|
    ensures var next := NextTurn(env, Entries(env, Ready(env, s), due, k), due[k]);
            Earliest(Tick(env, s, due).log, due[k].id)
            == if next.Some? then next else Earliest(Spent(env, s).log, due[k].id)
  {
    ReadyFollows(env, s, due);
    FollowsItself(env, Ready(env, s));
    EarliestAfterLoop(env, Ready(env, s), due, k);
  }

  /** A schedule that stayed differs from its row in the snapshot by its latest advance only. */
  lemma RowAfter(seen: State, now: State, id: ScheduleId)
    requires Good(seen) && Good(now) && Later(seen.tables, now.tables)
    requires id in seen.tables.schedules && id in now.tables.schedules
    ensures var row, next := now.tables.schedules[id], Earliest(now.log, id);
            && (next == Earliest(seen.log, id) ==> row == seen.tables.schedules[id])
            && (next.Some? ==> row == seen.tables.schedules[id].(nextRunAt := next))
  {
    assert now.tables.schedules[id] == RowOf(now.tables.created, now.log, id);
    assert seen.tables.schedules[id] == RowOf(seen.tables.created, seen.log, id);
    assert now.tables.created[id] == seen.tables.created[id];
  }

  /** A row that differs in its next run only is due when that has come. */
  lemma DueByNextRun(seen: Tables, now: Tables, id: ScheduleId, at: int, later: int, next: Option<int>)
    requires IsDue(seen, id, at) && id in now.schedules && now.schedules[id] == seen.schedules[id].(nextRunAt := next)
    requires seen.schedules[id].target in now.targets
    requires now.targets[seen.schedules[id].target] == seen.targets[seen.schedules[id].target]
    ensures IsDue(now, id, later) <==> next.None? || next.value <= later
  {
  }

  /** An entry of the snapshot is due in a later state exactly when it is still there and its next turn came. */
  lemma DueAgainIff(env: Env, seen: State, now: State, e: Due, later: int, next: Option<int>)
    requires Good(seen) && Good(now) && Follows(env, seen, now)
    requires IsDue(seen.tables, e.id, seen.clock) && e == EntryOf(seen.tables, e.id, seen.clock)
    requires Earliest(now.log, e.id) == if next.Some? then next else Earliest(seen.log, e.id)
    requires seen.clock <= later
    ensures IsDue(now.tables, e.id, later)
            <==> && !Dropped(env.edits, e.target, seen.statement, now.statement)
                 && (next.Some? ==> next.value <= later)
  {
    if e.id in now.tables.schedules {
      RowAfter(seen, now, e.id);
      DueByNextRun(seen.tables, now.tables, e.id, seen.clock, later, now.tables.schedules[e.id].nextRunAt);
    }
  }

  /**
   After the tick an entry of its snapshot is due at a time `later` exactly when no other session dropped its
   target meanwhile and its UPDATE either took no effect or set a time that has come by then.  When the reply of
   an UPDATE that took effect is lost, the schedule so waits for its next turn without having been scanned.
   */
  lemma DueAfterTickIff(env: Env, s: State, due: seq<Due>, k: nat, later: int)
    requires Good(s) && Lists(env, s, due) && Loops(env, s, due) && k < |due| && Spent(env, s).clock <= later
    ensures var next := NextTurn(env, Entries(env, Ready(env, s), due, k), due[k]);
            IsDue(Tick(env, s, due).tables, due[k].id, later)
            <==> && !Dropped(env.edits, due[k].target, s.statement + 1, Tick(env, s, due).statement)
                 && (next.Some? ==> next.value <= later)
  {
    TickKeepsGood(env, s, due);
    ReachesEntry(env, s, due, k);
    EarliestAfterTick(env, s, due, k);
    DueAgainIff(env, Spent(env, s), Tick(env, s, due), due[k], later,
                NextTurn(env, Entries(env, Ready(env, s), due, k), due[k]));
  }

  // ---- Many ticks ----

  /** State after state, one tick at a time. */
  ghost predicate AreTicks(env: Env, states: seq<State>, snapshots: seq<seq<Due>>) {
    && |states| == |snapshots| + 1
    && forall m :: 0 <= m < |snapshots| ==> IsTick(env, states[m], snapshots[m], states[m + 1])
  }

  ghost predicate IsTick(env: Env, s: State, due: seq<Due>, next: State) {
    Lists(env, s, due) && next == Tick(env, s, due)
  }

  /** Everything is in order at every tick, and the log only grows. */
  lemma {:induction false} TicksKeepGood(env: Env, states: seq<State>, snapshots: seq<seq<Due>>, i: nat, j: nat)
    requires AreTicks(env, states, snapshots) && i <= j < |states| && Good(states[i])
    ensures Good(states[j]) && states[i].log <= states[j].log && states[i].clock <= states[j].clock
    decreases j
  {
    if i < j {
      TicksKeepGood(env, states, snapshots, i, j - 1);
      assert IsTick(env, states[j - 1], snapshots[j - 1], states[j]);
      TickKeepsGood(env, states[j - 1], snapshots[j - 1]);
      TickGrows(env, states[j - 1], snapshots[j - 1]);
    }
  }

  /** The log tells that `id` was advanced at `at`, and then scanned if `scanned`. */
  ghost predicate Tells(log: seq<Event>, p: nat, id: ScheduleId, at: int, intervalSecs: int, scanned: bool) {
    && p < |log| && log[p].Advanced? && log[p].id == id && log[p].at == at && log[p].intervalSecs == intervalSecs
    && (scanned ==> p + 2 < |log| && log[p + 1] == ScanStarted(id) && log[p + 2] == ScanFinished(id))
  }

  lemma AnsweredEntryTells(env: Env, s: State, e: Due, log: seq<Event>)
    requires e.id in Spent(env, s).tables.created && !env.fails(s.statement) && Entry(env, s, e).log <= log
    ensures Tells(log, |s.log|, e.id, Spent(env, s).clock, e.intervalSecs, e.cidrs != [])
  {
    EntryEvents(env, s, e);
    var longer := Entry(env, s, e).log;
    assert forall p :: |s.log| <= p < |longer| ==> log[p] == longer[p];
  }

  lemma ReachedIsServed(env: Env, seen: State, s: State, e: Due, log: seq<Event>)
    requires Reached(env, seen, s, e) && !env.fails(s.statement) && Entry(env, s, e).log <= log
    ensures Tells(log, |s.log|, e.id, Spent(env, s).clock, e.intervalSecs, e.cidrs != [])
    ensures seen.clock <= Spent(env, s).clock
  {
    UnfoundIffDropped(env, seen, s, e);
    AnsweredEntryTells(env, s, e, log);
  }

  lemma {:induction false} LoopClock(env: Env, s: State, due: seq<Due>, i: nat, k: nat)
    requires i <= k <= |due|
    ensures Entries(env, s, due, i).clock <= Entries(env, s, due, k).clock
    decreases k
  {
    if i < k {
      LoopClock(env, s, due, i, k - 1);
    }
  }

  /** An entry's UPDATE comes before the loop ends. */
  lemma EntryClock(env: Env, s: State, due: seq<Due>, k: nat)
    requires k < |due|
    ensures Spent(env, Entries(env, s, due, k)).clock <= Entries(env, s, due, |due|).clock
  {
    NextEntry(env, s, due, k);
    LoopClock(env, s, due, k + 1, |due|);
  }

  lemma EntryIsTold(env: Env, s: State, due: seq<Due>, k: nat)
    requires Good(s) && Lists(env, s, due) && Loops(env, s, due) && k < |due|
    requires !env.fails(NumberOf(env.fails, due, k, s.statement + 2))
    ensures var before := Entries(env, Ready(env, s), due, k);
            var at := Spent(env, before).clock;
            && Tells(Tick(env, s, due).log, |before.log|, due[k].id, at, due[k].intervalSecs, due[k].cidrs != [])
            && Spent(env, s).clock <= at
  {
    EntryIsLogged(env, s, due, k);
    ReachesEntry(env, s, due, k);
    NumberOfEntry(env, s, due, k);
    ReachedIsServed(env, Spent(env, s), Entries(env, Ready(env, s), due, k), due[k], Tick(env, s, due).log);
  }

  /** A listed entry whose UPDATE is answered is advanced, and scanned if it has addresses. */
  lemma EntryIsServed(env: Env, s: State, due: seq<Due>, k: nat) returns (p: nat, at: int)
    requires Good(s) && Lists(env, s, due) && Loops(env, s, due) && k < |due|
    requires !env.fails(NumberOf(env.fails, due, k, s.statement + 2))
    ensures Tells(Tick(env, s, due).log, p, due[k].id, at, due[k].intervalSecs, due[k].cidrs != [])
    ensures Spent(env, s).clock <= at <= Tick(env, s, due).clock
  {
    EntryIsTold(env, s, due, k);
    EntryClock(env, Ready(env, s), due, k);
    var before := Entries(env, Ready(env, s), due, k);
    p, at := |before.log|, Spent(env, before).clock;
  }

  lemma StillTells(
      log: seq<Event>, longer: seq<Event>, p: nat, id: ScheduleId, at: int, intervalSecs: int, scanned: bool)
    requires Tells(log, p, id, at, intervalSecs, scanned) && log <= longer
    ensures Tells(longer, p, id, at, intervalSecs, scanned)
  {
    assert forall i :: 0 <= i < |log| ==> longer[i] == log[i];
  }

  lemma DueIsListed(t: Tables, now: int, due: seq<Due>, id: ScheduleId) returns (k: nat)
    requires IsSnapshot(t, now, due) && IsDue(t, id, now)
    ensures k < |due| && due[k] == EntryOf(t, id, now)
  {
    k :| 0 <= k < |due| && due[k].id == id;
  }

  /** What the tick that finds it due does for a schedule. */
  lemma DueIsServedAtOnce(env: Env, s: State, due: seq<Due>, id: ScheduleId) returns (k: nat, p: nat, at: int)
    requires Good(s) && Lists(env, s, due) && IsDue(Spent(env, s).tables, id, Spent(env, s).clock)
    requires !env.fails(s.statement) && !env.fails(s.statement + 1)
    requires forall i :: 0 <= i < |due| && due[i].id == id ==>
               !env.fails(NumberOf(env.fails, due, i, s.statement + 2))
    ensures k < |due| && due[k] == EntryOf(Spent(env, s).tables, id, Spent(env, s).clock)
    ensures Tells(Tick(env, s, due).log, p, id, at, due[k].intervalSecs, due[k].cidrs != [])
    ensures Spent(env, s).clock <= at <= Tick(env, s, due).clock
  {
    k := DueIsListed(Spent(env, s).tables, Spent(env, s).clock, due, id);
    p, at := EntryIsServed(env, s, due, k);
  }

  /**
   Every schedule that is due when a tick lists them is served: when the tick's two queries and the schedule's
   UPDATE are answered, the log of any later state tells that it was advanced during the tick by its interval,
   and then scanned if its target has addresses.
   */
  lemma DueIsServed(env: Env, states: seq<State>, snapshots: seq<seq<Due>>, m: nat, j: nat, id: ScheduleId)
    returns (p: nat, at: int)
    requires AreTicks(env, states, snapshots) && Good(states[0]) && m < j < |states|
    requires var seen := Spent(env, states[m]); IsDue(seen.tables, id, seen.clock)
    requires !env.fails(states[m].statement) && !env.fails(states[m].statement + 1)
    requires forall i :: 0 <= i < |snapshots[m]| && snapshots[m][i].id == id ==>
               !env.fails(NumberOf(env.fails, snapshots[m], i, states[m].statement + 2))
    ensures var t := Spent(env, states[m]).tables;
            Tells(states[j].log, p, id, at, t.schedules[id].intervalSecs, t.targets[t.schedules[id].target].cidrs != [])
    ensures Spent(env, states[m]).clock <= at <= states[m + 1].clock
  {
    TicksKeepGood(env, states, snapshots, 0, m);
    TicksKeepGood(env, states, snapshots, 0, m + 1);
    TicksKeepGood(env, states, snapshots, m + 1, j);
    assert IsTick(env, states[m], snapshots[m], states[m + 1]);
    var k: nat;
    k, p, at := DueIsServedAtOnce(env, states[m], snapshots[m], id);
    StillTells(states[m + 1].log, states[j].log, p, id, at, snapshots[m][k].intervalSecs,
               snapshots[m][k].cidrs != []);
  }

  // ---- The program ----

  class Scheduler {
    var tables: Tables
    var clock: int
    var statement: nat
    var log: seq<Event>
    const env: Env

    ghost function Now(): State
      reads this`tables, this`clock, this`statement, this`log
    {
      State(tables, clock, statement, log)
    }

    ghost predicate Valid()
      reads this`tables, this`clock, this`statement, this`log
    {
      Good(Now())
    }

    constructor (targets: map<TargetId, Target>, clock: int, env: Env)
      ensures Valid() && Now() == State(Tables(map[], targets, map[]), clock, 0, []) && this.env == env
    {
      this.tables, this.clock, this.statement, this.log := Tables(map[], targets, map[]), clock, 0, [];
      this.env := env;
    }

    /** One statement, or one scan. */
    method Spend() returns (ok: bool)
      modifies this`tables, this`clock, this`statement
      ensures Now() == Spent(env, old(Now())) && ok == !env.fails(old(statement))
    {
      clock := clock + env.pace(statement);
      tables := EditedAll(tables, env.edits(statement), clock);
      ok := !env.fails(statement);
      statement := statement + 1;
    }

    /** A new schedule, of a target that is there, is due at once when both are enabled.  The database refuses an
        unknown target, and an interval its column does not hold. */
    method CreateSchedule(id: ScheduleId, target: TargetId, intervalSecs: int, enabled: bool) returns (ok: bool)
      requires Valid() && id !in Spent(env, Now()).tables.created
      modifies this`tables, this`clock, this`statement
      ensures Valid() && Now() == Sent(env, old(Now()), AddSchedule(id, target, intervalSecs, enabled))
      ensures ok <==> && !env.fails(old(statement)) && target in Spent(env, old(Now())).tables.targets
                      && Inventory.Int4Fits(intervalSecs)
      ensures ok ==> target in tables.targets
                     && (IsDue(tables, id, clock) <==> enabled && tables.targets[target].enabled)
      ensures id in tables.schedules <==>
              && TakesEffect(env, old(statement)) && target in Spent(env, old(Now())).tables.targets
              && Inventory.Int4Fits(intervalSecs)
    {
      SpentKeepsGood(env, Now());
      ok := Spend();
      EditKeepsTable(tables, log, AddSchedule(id, target, intervalSecs, enabled), clock);
      if TakesEffect(env, statement - 1) {
        ok := ok && target in tables.targets && Inventory.Int4Fits(intervalSecs);
        tables := Edited(tables, AddSchedule(id, target, intervalSecs, enabled), clock);
      }
    }

    /** Deleting a target deletes exactly its schedules with it. */
    method DeleteScanTarget(target: TargetId) returns (ok: bool)
      requires Valid()
      modifies this`tables, this`clock, this`statement
      ensures Valid() && Now() == Sent(env, old(Now()), DropTarget(target)) && ok == !env.fails(old(statement))
      ensures ok ==> target !in tables.targets && forall id :: id in tables.schedules <==>
                var met := Spent(env, old(Now())).tables; id in met.schedules && met.schedules[id].target != target
    {
      SpentKeepsGood(env, Now());
      ok := Spend();
      EditKeepsTable(tables, log, DropTarget(target), clock);
      if TakesEffect(env, statement - 1) {
        tables := Edited(tables, DropTarget(target), clock);
      }
    }

    /** The due schedules, each with its target's addresses. */
    method DueSchedules() returns (due: Option<seq<Due>>)
      modifies this`tables, this`clock, this`statement
      ensures Now() == Spent(env, old(Now())) && (due.None? <==> env.fails(old(statement)))
      ensures due.Some? ==> IsSnapshot(tables, clock, due.value)
    {
      var ok := Spend();
      if !ok {
        return None;
      }
      var rows := ListDue(tables, clock);
      return Some(rows);
    }

    /** next_run_at := now() + interval for the row of that id, which may be gone. */
    method AdvanceSchedule(id: ScheduleId, intervalSecs: int) returns (ok: bool)
      modifies this`tables, this`clock, this`statement, this`log
      ensures Now() == Advance(env, old(Now()), id, intervalSecs) && ok == !env.fails(old(statement))
    {
      ok := Spend();
      if TakesEffect(env, statement - 1) && id in tables.created {
        log := log + [Advanced(id, clock, intervalSecs, id in tables.schedules)];
        tables := Pushed(tables, id, clock, intervalSecs);
      }
    }

    /** A scan runs to its end, well or badly, before the loop goes on. */
    method RunScan(id: ScheduleId)
      modifies this`tables, this`clock, this`statement, this`log
      ensures Now() == Scan(env, old(Now()), id)
    {
      var done := Spend();
      log := log + [ScanStarted(id), ScanFinished(id)];
    }

    /** One entry of the snapshot: advance first, and only then scan. */
    method RunOne(e: Due)
      modifies this`tables, this`clock, this`statement, this`log
      ensures Now() == Entry(env, old(Now()), e)
    {
      var ok := AdvanceSchedule(e.id, e.intervalSecs);
      if !ok || e.cidrs == [] {
        return;
      }
      RunScan(e.id);
    }

    /** One tick, over whatever snapshot the database gave. */
    method RunDue() returns (ghost due: seq<Due>)
      requires Valid()
      modifies this`tables, this`clock, this`statement, this`log
      ensures Lists(env, old(Now()), due) && Now() == Tick(env, old(Now()), due)
      ensures Valid() && Follows(env, Spent(env, old(Now())), Now())
      ensures old(log) <= log && clock >= old(clock) && statement > old(statement)
    {
      ghost var s := Now();
      due := [];
      var snapshot := DueSchedules();
      if snapshot.Some? {
        due := snapshot.value;
      }
      TickKeepsGood(env, s, due);
      TickGrows(env, s, due);
      if snapshot.None? || snapshot.value == [] {
        return;
      }
      var credentials := Spend();
      if !credentials {
        return;
      }
      for i := 0 to |snapshot.value|
        invariant Now() == Entries(env, Ready(env, s), due, i)
      {
        RunOne(snapshot.value[i]);
      }
    }

    /** The loop: a tick at the start, then one per timer tick until the context is cancelled.  Tick `m` starts in
        `states[m]`, and its first query, unless it fails, returns `snapshots[m]`. */
    method Run(ticks: nat) returns (ghost states: seq<State>, ghost snapshots: seq<seq<Due>>)
      requires Valid()
      modifies this`tables, this`clock, this`statement, this`log
      ensures Valid() && AreTicks(env, states, snapshots)
      ensures |snapshots| == ticks + 1 && states[0] == old(Now()) && states[ticks + 1] == Now()
      ensures old(log) <= log && clock >= old(clock) && statement >= old(statement) + ticks + 1
    {
      states := [Now()];
      ghost var due := RunDue();
      states, snapshots := states + [Now()], [due];
      for i := 0 to ticks
        invariant Valid() && |snapshots| == i + 1 && AreTicks(env, states, snapshots)
        invariant states[0] == old(Now()) && states[i + 1] == Now()
        invariant old(log) <= log && clock >= old(clock) && statement >= old(statement) + i + 1
      {
        due := RunDue();
        states, snapshots := states + [Now()], snapshots + [due];
      }
    }
  }

  // ---- Instances ----

  const NET := Target(["10.0.0.0/24"], true)
  const ROW := Schedule(0, 60, true, Some(0))
  const ENTRY := Due(0, 0, 60, NET.cidrs)

  /** One schedule, due at once. */
  const ONE_DUE := State(Tables(map[0 := ROW], map[0 := NET], map[0 := ROW]), 0, 0, [])

  /** The target goes just before the tick's third statement, which is the UPDATE. */
  const DELETED := Env(n => 0, n => false, n => false, n => if n == 2 then [DropTarget(0)] else [])

  /** The reply of that UPDATE is lost. */
  const LOST := Env(n => 0, n => n == 2, n => true, n => [])

  lemma OneDueIsGood()
    ensures Good(ONE_DUE) && IsSnapshot(ONE_DUE.tables, 0, [ENTRY])
  {
    assert IsDue(ONE_DUE.tables, 0, 0) && EntryOf(ONE_DUE.tables, 0, 0) == ENTRY;
    assert [ENTRY][0].id == 0;
  }

  /** A quiet start: nothing happens before the third statement. */
  lemma ThirdStatement(env: Env)
    requires env.pace(0) == 0 && env.pace(1) == 0 && env.edits(0) == [] && env.edits(1) == []
    requires !env.fails(0) && !env.fails(1)
    ensures Lists(env, ONE_DUE, [ENTRY]) && Tick(env, ONE_DUE, [ENTRY]) == Entry(env, ONE_DUE.(statement := 2), ENTRY)
  {
    OneDueIsGood();
    assert Spent(env, ONE_DUE) == ONE_DUE.(statement := 1);
    assert Ready(env, ONE_DUE) == ONE_DUE.(statement := 2);
    NextEntry(env, Ready(env, ONE_DUE), [ENTRY], 0);
  }

  /** The target is deleted after the snapshot, and its addresses are scanned all the same. */
  lemma ScanOfDeletedTarget()
    ensures Good(ONE_DUE) && Lists(DELETED, ONE_DUE, [ENTRY])
    ensures Tick(DELETED, ONE_DUE, [ENTRY]).log == [Advanced(0, 0, 60, false), ScanStarted(0), ScanFinished(0)]
  {
    OneDueIsGood();
    ThirdStatement(DELETED);
    assert [DropTarget(0)][..0] == [];
    EntryEvents(DELETED, ONE_DUE.(statement := 2), ENTRY);
  }

  /** The schedule is advanced, but not scanned, and has to wait for its next turn. */
  lemma LostReplyExample()
    ensures Good(ONE_DUE) && Lists(LOST, ONE_DUE, [ENTRY])
    ensures Tick(LOST, ONE_DUE, [ENTRY]).log == [Advanced(0, 0, 60, true)]
    ensures forall later :: IsDue(Tick(LOST, ONE_DUE, [ENTRY]).tables, 0, later) <==> later >= 60 * SECOND
  {
    OneDueIsGood();
    ThirdStatement(LOST);
  }

  /** One schedule, just advanced. */
  const JUST_ADVANCED := State(
    Tables(map[0 := ROW.(nextRunAt := Some(60 * SECOND))], map[0 := NET], map[0 := ROW]),
    0, 0, [Advanced(0, 0, 60, true)])

  lemma JustAdvancedIsGood()
    ensures Good(JUST_ADVANCED) && Earliest(JUST_ADVANCED.log, 0) == Some(60 * SECOND)
  {
    LogOne([], Advanced(0, 0, 60, true));
    assert [] + [Advanced(0, 0, 60, true)] == JUST_ADVANCED.log;
  }

  /** Advanced again at once, it is out of step. */
  lemma EarlyAdvanceExample()
    ensures Good(JUST_ADVANCED) && !Good(Advance(LOST, JUST_ADVANCED, 0, 60))
  {
    JustAdvancedIsGood();
    assert Spent(LOST, JUST_ADVANCED) == JUST_ADVANCED.(statement := 1);
    AdvanceKeepsGoodIff(LOST, JUST_ADVANCED, 0, 60);
  }
}
