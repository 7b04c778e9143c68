/**
 An interleaving in which the timeline breaks: two upserts of one device diff against the same snapshot,
 and the second one's event is about a value the first has already replaced.
 */
module StaleSnapshot {
  import opened Wrappers
  import opened Inventory
  import opened Timeline
  import opened Transactions

  /** Some interleaving reaches the state. */
  ghost predicate Reached(w: World) {
    exists steps, worlds :: IsInterleaving(steps, worlds) && worlds[|steps|] == w
  }

  lemma Extend(steps: seq<Step>, worlds: seq<World>, s: Step)
    requires IsInterleaving(steps, worlds) && Enabled(worlds[|steps|], s)
    ensures IsInterleaving(steps + [s], worlds + [Apply(worlds[|steps|], s)])
  {
    var longer, states := steps + [s], worlds + [Apply(worlds[|steps|], s)];
    forall i | 0 <= i < |longer|
      ensures Enabled(states[i], longer[i]) && states[i + 1] == Apply(states[i], longer[i])
    {
      if i < |steps| {
        assert longer[i] == steps[i] && states[i] == worlds[i] && states[i + 1] == worlds[i + 1];
      }
    }
  }

  lemma ReachedStep(w: World, s: Step, next: World)
    requires Reached(w) && Enabled(w, s) && Apply(w, s) == next
    ensures Reached(next)
  {
    var steps, worlds :| IsInterleaving(steps, worlds) && worlds[|steps|] == w;
    Extend(steps, worlds, s);
    assert (worlds + [next])[|steps + [s]|] == next;
  }

  lemma InitIsReached()
    ensures Reached(INIT)
  {
    var steps: seq<Step>, worlds := [], [INIT];
    assert IsInterleaving(steps, worlds);
    assert worlds[|steps|] == INIT;
  }

  /** The only device is updated while nobody else holds a row. */
  lemma ReachedUpdate(w: World, k: nat, tx: Tx, row: DeviceRow, seen: Scalars, next: Tx)
    requires Reached(w) && k in w.txs && w.txs[k] == tx && tx.phase == Write(Some(0), seen)
    requires w.db.devices == map[0 := row] && InetFits(tx.u.device.primaryIp)
    requires forall m :: m in w.txs && m != k ==> !HasRow(w.txs[m])
    requires next == Wrote(tx, false, 0, Overlay(row, tx.u.device, tx.u.now), seen, Diff(seen, tx.u.device))
    ensures Reached(w.(txs := w.txs[k := next]))
  {
    ReachedStep(w, UpdateRow(k), w.(txs := w.txs[k := next]));
  }

  /** The next event of an open transaction is inserted. */
  lemma ReachedLog(w: World, k: nat, tx: Tx, pc: nat)
    requires Reached(w) && k in w.txs && w.txs[k] == tx && tx.phase == Log(pc) && pc < |tx.changes|
    ensures Reached(w.(txs := w.txs[k := tx.(phase := Log(pc + 1))]))
  {
    ReachedStep(w, LogOne(k), w.(txs := w.txs[k := tx.(phase := Log(pc + 1))]));
  }

  /** A transaction that collected nothing commits. */
  lemma ReachedCommit(w: World, k: nat, tx: Tx, db: Db, others: map<nat, Tx>)
    requires Reached(w) && k in w.txs && w.txs[k] == tx && tx.phase == Log(|tx.changes|) && !tx.u.collected
    requires db == Committed(w.db, tx) && others == w.txs - {k}
    ensures Enabled(w, Commit(k)) && Reached(World(db, others, w.nextTx, w.collectedBy))
  {
    ReachedStep(w, Commit(k), World(db, others, w.nextTx, w.collectedBy));
  }

  // ---- Three reports about the device with serial S ----

  function Named(hostname: string, newId: Id): Upsert {
    Upsert(Device("linux", hostname, "", "S", "", "", "", [], None, None, [], []), "", false, newId, 0)
  }

  const FIRST := Named("a", 0)
  const SECOND := Named("b", 1)
  const THIRD := Named("c", 2)

  const ROW_A := NewRow(FIRST.device, 0)
  const ROW_B := Overlay(ROW_A, SECOND.device, 0)
  const SNAPSHOT := RowScalars(ROW_A)

  function DbWith(row: DeviceRow, log: seq<ChangeRow>): Db {
    Db(map[0 := row], map[], map[], map[], log)
  }

  // ---- The first one inserts the device ----

  function Looking(level: nat): World {
    INIT.(txs := map[0 := Opened(FIRST).(phase := Attempt(level))], nextTx := 1)
  }

  lemma {:induction false} LooksAreReached(level: nat)
    requires level <= LEVELS
    ensures Reached(Looking(level))
  {
    if level == 0 {
      InitIsReached();
      ReachedStep(INIT, Begin(FIRST), Looking(0));
    } else {
      LooksAreReached(level - 1);
      assert MacsOf(FIRST.device.interfaces) == [];
      assert Hits(INIT.db, FIRST.device, level - 1) == {};
      ReachedStep(Looking(level - 1), Look(0, None), Looking(level));
    }
  }

  const INSERTED := World(DbWith(ROW_A, []), map[], 1, map[])

  function Inserting(tx: Tx): World {
    INIT.(txs := map[0 := tx], nextTx := 1)
  }

  const FOUND_NONE := Opened(FIRST).(phase := Write(None, BLANK))
  const WROTE_A := Wrote(FOUND_NONE, true, 0, ROW_A, BLANK, [])

  lemma NoneIsFound()
    ensures Reached(Inserting(FOUND_NONE))
  {
    LooksAreReached(LEVELS);
    ReachedStep(Looking(LEVELS), Look(0, None), Inserting(FOUND_NONE));
  }

  lemma RowIsWritten()
    ensures Reached(Inserting(WROTE_A))
  {
    NoneIsFound();
    ReachedStep(Inserting(FOUND_NONE), InsertRow(0), Inserting(WROTE_A));
  }

  lemma InsertIsReached()
    ensures Reached(INSERTED)
  {
    RowIsWritten();
    ReachedCommit(Inserting(WROTE_A), 0, WROTE_A, INSERTED.db, map[]);
  }

  // ---- The other two read the same row ----

  function Both(db: Db, second: Tx, third: Tx): World {
    World(db, map[1 := second, 2 := third], 3, map[])
  }

  function Ready(u: Upsert): Tx {
    Opened(u).(phase := Write(Some(0), SNAPSHOT))
  }

  /** Transaction `k` of the two resolves to the device and takes its snapshot. */
  lemma ReadsAreReached(db: Db, before: World, k: nat, u: Upsert, after: World)
    requires db == DbWith(ROW_A, []) && (u == SECOND || u == THIRD)
    requires Reached(before) && before.db == db && k in before.txs && before.txs[k] == Opened(u)
    requires after == before.(txs := before.txs[k := Ready(u)])
    ensures Reached(after)
  {
    assert 0 in Hits(db, u.device, 0);
    var found := before.(txs := before.txs[k := Opened(u).(phase := ReadRow(0))]);
    ReachedStep(before, Look(k, Some(0)), found);
    var row := before.(txs := before.txs[k := Opened(u).(phase := ReadOs(0, SNAPSHOT))]);
    ReachedStep(found, SeeRow(k), row);
    ReachedStep(row, SeeOs(k), after);
  }

  lemma BothReadIsReached()
    ensures Reached(Both(DbWith(ROW_A, []), Ready(SECOND), Ready(THIRD)))
  {
    var db := DbWith(ROW_A, []);
    InsertIsReached();
    var one := INSERTED.(txs := map[1 := Opened(SECOND)], nextTx := 2);
    ReachedStep(INSERTED, Begin(SECOND), one);
    var two := Both(db, Opened(SECOND), Opened(THIRD));
    ReachedStep(one, Begin(THIRD), two);
    var read := Both(db, Ready(SECOND), Opened(THIRD));
    ReadsAreReached(db, two, 1, SECOND, read);
    ReadsAreReached(db, read, 2, THIRD, Both(db, Ready(SECOND), Ready(THIRD)));
  }

  // ---- Both commit ----

  const TO_B := [Change(Hostname, "a", "b")]
  const TO_C := [Change(Hostname, "a", "c")]

  lemma DiffsAre()
    ensures Diff(SNAPSHOT, SECOND.device) == TO_B && Diff(SNAPSHOT, THIRD.device) == TO_C
  {
  }

  const AFTER_SECOND := World(DbWith(ROW_B, LogRows(0, "", TO_B)), map[2 := Ready(THIRD)], 3, map[])

  const WROTE_B := Wrote(Ready(SECOND), false, 0, ROW_B, SNAPSHOT, TO_B)

  const LOGGED_B := WROTE_B.(phase := Log(1))

  lemma SecondsDb()
    ensures Committed(DbWith(ROW_A, []), LOGGED_B) == AFTER_SECOND.db
  {
    assert DbWith(ROW_A, []).log + LogRows(0, "", TO_B) == LogRows(0, "", TO_B);
  }

  function Second(tx: Tx): World {
    Both(DbWith(ROW_A, []), tx, Ready(THIRD))
  }

  lemma SecondWrites()
    ensures Reached(Second(WROTE_B))
  {
    BothReadIsReached();
    DiffsAre();
    ReachedUpdate(Second(Ready(SECOND)), 1, Ready(SECOND), ROW_A, SNAPSHOT, WROTE_B);
    assert Second(Ready(SECOND)).txs[1 := WROTE_B] == Second(WROTE_B).txs;
  }

  lemma SecondLogs()
    ensures Reached(Second(LOGGED_B))
  {
    SecondWrites();
    ReachedLog(Second(WROTE_B), 1, WROTE_B, 0);
    assert Second(WROTE_B).txs[1 := LOGGED_B] == Second(LOGGED_B).txs;
  }

  lemma SecondCommits()
    ensures Reached(AFTER_SECOND)
  {
    SecondLogs();
    SecondsDb();
    ReachedCommit(Second(LOGGED_B), 1, LOGGED_B, AFTER_SECOND.db, AFTER_SECOND.txs);
  }

  const WROTE_C := Wrote(Ready(THIRD), false, 0, Overlay(ROW_B, THIRD.device, 0), SNAPSHOT, TO_C)

  function Third(tx: Tx): World {
    AFTER_SECOND.(txs := map[2 := tx])
  }

  lemma ThirdWrites()
    ensures Reached(Third(WROTE_C))
  {
    SecondCommits();
    DiffsAre();
    ReachedUpdate(Third(Ready(THIRD)), 2, Ready(THIRD), ROW_B, SNAPSHOT, WROTE_C);
    assert Third(Ready(THIRD)).txs[2 := WROTE_C] == Third(WROTE_C).txs;
  }

  const LOGGED_C := WROTE_C.(phase := Log(1))
  const BEFORE_LAST := Third(LOGGED_C)

  lemma ThirdIsReady()
    ensures Reached(BEFORE_LAST) && Enabled(BEFORE_LAST, Commit(2))
  {
    ThirdWrites();
    ReachedLog(Third(WROTE_C), 2, WROTE_C, 0);
    assert Third(WROTE_C).txs[2 := LOGGED_C] == BEFORE_LAST.txs;
    ReachedCommit(BEFORE_LAST, 2, LOGGED_C, Committed(BEFORE_LAST.db, LOGGED_C), BEFORE_LAST.txs - {2});
  }

  lemma EventIsStale()
    ensures Replay(RowScalars(ROW_B), TO_C, ROW_FIELDS) == None
  {
  }

  /** The interleaving: at its last commit the logged event is not genuine, because the hostname it says
      it replaces was the snapshot's and no longer the row's. */
  lemma StaleSnapshotExample() returns (steps: seq<Step>, worlds: seq<World>)
    ensures IsInterleaving(steps, worlds) && |steps| > 0
    ensures var n := |steps| - 1;
            && steps[n] == Commit(2)
            && var tx := worlds[n].txs[2];
            && tx.id in worlds[n].db.devices
            && Replay(RowScalars(worlds[n].db.devices[tx.id]), tx.changes, ROW_FIELDS) == None
  {
    ThirdIsReady();
    EventIsStale();
    var before, states :| IsInterleaving(before, states) && states[|before|] == BEFORE_LAST;
    Extend(before, states, Commit(2));
    steps, worlds := before + [Commit(2)], states + [Apply(BEFORE_LAST, Commit(2))];
    assert worlds[|before|] == BEFORE_LAST;
  }
}
