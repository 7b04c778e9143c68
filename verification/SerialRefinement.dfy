/**
 The statement-by-statement transaction refines the one-step upsert: run without interruption from its
 BEGIN to its COMMIT, it commits a result of the serial specification.
 */
module SerialRefinement {
  import opened Wrappers
  import opened Inventory
  import opened Timeline
  import opened Transactions
  import opened UpsertLaws

  // ---- The two views of the tables ----

  /** A device's rows of one child table. */
  function BodiesOf(t: Tables, id: Id, table: Table): seq<ChildBody> {
    match table
    case InterfaceTable =>
      var rows := RowsOf(t.interfaces, id);
      seq(|rows|, i requires 0 <= i < |rows| => InterfaceBody(rows[i]))
    case SoftwareTable =>
      var rows := RowsOf(t.software, id);
      seq(|rows|, i requires 0 <= i < |rows| => SoftwareBody(rows[i]))
    case UserTable =>
      var rows := RowsOf(t.users, id);
      seq(|rows|, i requires 0 <= i < |rows| => UserBody(rows[i]))
  }

  /** `order` lists the ids of the device's rows in one table, each once, and `bodies` what they hold. */
  ghost predicate Lists(
      children: map<RowId, ChildRow>, id: Id, table: Table, order: seq<RowId>, bodies: seq<ChildBody>) {
    && |order| == |bodies|
    && (forall i, j :: 0 <= i < j < |order| ==> order[i] != order[j])
    && (forall i :: 0 <= i < |order| ==> order[i] in children && children[order[i]] == ChildRow(id, bodies[i]))
    && (forall rid :: rid in children && children[rid].device == id && TableOf(children[rid].body) == table ==>
        rid in order)
  }

  ghost predicate Listed(children: map<RowId, ChildRow>, t: Tables, id: Id, table: Table) {
    exists order :: Lists(children, id, table, order, BodiesOf(t, id, table))
  }

  /** The committed rows are those of `t`. */
  ghost predicate Represents(db: Db, t: Tables) {
    && db.devices == t.devices && db.os == t.os && db.hardware == t.hardware && db.log == t.log
    && forall id, table :: Listed(db.children, t, id, table)
  }

  lemma EmptyRepresentsEmpty()
    ensures Represents(INIT.db, EMPTY_TABLES)
  {
    forall id, table
      ensures Listed(INIT.db.children, EMPTY_TABLES, id, table)
    {
      assert Lists(INIT.db.children, id, table, [], BodiesOf(EMPTY_TABLES, id, table));
    }
  }

  // ---- Resolution ----

  lemma InterfaceIsListed(db: Db, t: Tables, rid: RowId) returns (i: nat)
    requires Represents(db, t) && rid in db.children && db.children[rid].body.InterfaceBody?
    ensures i < |RowsOf(t.interfaces, db.children[rid].device)|
    ensures RowsOf(t.interfaces, db.children[rid].device)[i] == db.children[rid].body.interface
  {
    var id := db.children[rid].device;
    assert Listed(db.children, t, id, InterfaceTable);
    var order :| Lists(db.children, id, InterfaceTable, order, BodiesOf(t, id, InterfaceTable));
    i :| 0 <= i < |order| && order[i] == rid;
    assert BodiesOf(t, id, InterfaceTable)[i] == db.children[rid].body;
  }

  lemma ListedIsInterface(db: Db, t: Tables, id: Id, i: nat) returns (rid: RowId)
    requires Represents(db, t) && i < |RowsOf(t.interfaces, id)|
    ensures rid in db.children && db.children[rid] == ChildRow(id, InterfaceBody(RowsOf(t.interfaces, id)[i]))
  {
    assert Listed(db.children, t, id, InterfaceTable);
    var order :| Lists(db.children, id, InterfaceTable, order, BodiesOf(t, id, InterfaceTable));
    rid := order[i];
  }

  lemma OneHasMac(row: InterfaceRow, macs: seq<seq<Octet>>)
    ensures HasAnyMac([row], macs) <==> row.mac.Some? && row.mac.value in macs
  {
    assert [row][0] == row;
  }

  lemma MacHitIsCandidate(db: Db, t: Tables, d: Device, id: Id)
    requires Represents(db, t) && id in Hits(db, d, 2)
    ensures id in Candidates(t, d, 2)
  {
    var macs := MacsOf(d.interfaces);
    var rid :| rid in db.children && db.children[rid].device == id && db.children[rid].body.InterfaceBody?
      && HasAnyMac([db.children[rid].body.interface], macs);
    OneHasMac(db.children[rid].body.interface, macs);
    var i := InterfaceIsListed(db, t, rid);
    assert HasAnyMac(RowsOf(t.interfaces, id), macs);
  }

  lemma MacCandidateIsHit(db: Db, t: Tables, d: Device, id: Id)
    requires Represents(db, t) && id in Candidates(t, d, 2)
    ensures id in Hits(db, d, 2)
  {
    var rows, macs := RowsOf(t.interfaces, id), MacsOf(d.interfaces);
    var i :| 0 <= i < |rows| && rows[i].mac.Some? && rows[i].mac.value in macs;
    OneHasMac(rows[i], macs);
    var rid := ListedIsInterface(db, t, id, i);
  }

  /** Each query sees the same devices in both views. */
  lemma HitsAreCandidates(db: Db, t: Tables, d: Device, level: nat)
    requires Represents(db, t)
    ensures Hits(db, d, level) == Candidates(t, d, level)
  {
    if level == 2 {
      forall id | id in Hits(db, d, 2) {
        MacHitIsCandidate(db, t, d, id);
      }
      forall id | id in Candidates(t, d, 2) {
        MacCandidateIsHit(db, t, d, id);
      }
    }
  }

  ghost predicate Resolved(t: Tables, d: Device, target: Option<Id>) {
    ResolvesTo(t, d, target) && !ResolveFails(t, d) && (target.Some? ==> target.value in t.devices)
  }

  ghost predicate KeysFitBefore(d: Device, level: nat) {
    forall i :: 0 <= i < level && HasKey(d, i) ==> !KeyMisfits(d, i)
  }

  function TargetOf(tx: Tx): Option<Id> {
    if tx.isNew then None else Some(tx.id)
  }

  /** How far the transaction's reads have come, in terms of the serial resolution. */
  ghost predicate Resolving(t: Tables, tx: Tx) {
    var d := tx.u.device;
    match tx.phase
    case Attempt(level) => level <= LEVELS && NothingBefore(t, d, level) && KeysFitBefore(d, level)
    case ReadRow(id) => Resolved(t, d, Some(id))
    case ReadOs(id, seen) => Resolved(t, d, Some(id)) && seen == RowScalars(t.devices[id])
    case Write(target, seen) => Resolved(t, d, target) && (target.Some? ==> seen == ScalarsOf(t, target.value))
    case _ =>
      && Resolved(t, d, TargetOf(tx)) && InetFits(d.primaryIp)
      && (if tx.isNew then tx.id == tx.u.newId && tx.u.newId !in t.devices else tx.seen == ScalarsOf(t, tx.id))
  }

  lemma HitResolves(t: Tables, d: Device, level: nat, id: Id)
    requires level < LEVELS && NothingBefore(t, d, level) && KeysFitBefore(d, level + 1)
    requires id in Candidates(t, d, level) && id in t.devices
    ensures Resolved(t, d, Some(id))
  {
    assert ResolvesAt(t, d, level, Some(id));
    forall k: nat | k < LEVELS && NothingBefore(t, d, k)
      ensures !(HasKey(d, k) && KeyMisfits(d, k))
    {
      assert k > level ==> Candidates(t, d, level) == {};
    }
  }

  lemma NoHitResolves(t: Tables, d: Device)
    requires NothingBefore(t, d, LEVELS) && KeysFitBefore(d, LEVELS)
    ensures Resolved(t, d, None)
  {
    assert ResolvesAt(t, d, LEVELS, None);
  }

  lemma LookResolves(w: World, t: Tables, s: Step)
    requires Represents(w.db, t) && Inv(w) && s.Look? && Enabled(w, s) && Resolving(t, w.txs[s.k])
    ensures Resolving(t, Apply(w, s).txs[s.k])
  {
    var tx := w.txs[s.k];
    var d, level := tx.u.device, tx.phase.level;
    HitsAreCandidates(w.db, t, d, level);
    assert KeysFitBefore(d, level + 1);
    if s.hit.Some? {
      HitsExist(w, d, level, s.hit.value);
      HitResolves(t, d, level, s.hit.value);
    } else if level < LEVELS {
      assert NothingBefore(t, d, level + 1);
    } else {
      NoHitResolves(t, d);
    }
  }

  lemma ReadResolves(w: World, t: Tables, s: Step)
    requires Represents(w.db, t) && Inv(w) && (s.SeeRow? || s.SeeOs? || s.InsertRow? || s.UpdateRow?)
    requires Enabled(w, s) && Resolving(t, w.txs[s.k])
    ensures Resolving(t, Apply(w, s).txs[s.k])
  {
  }

  // ---- The side rows ----

  /** Where the script writes the OS row, and the hardware row. */
  function OsAt(d: Device): nat {
    3 + |d.interfaces|
  }

  function HardwareAt(d: Device): nat {
    OsAt(d) + if d.os.Some? then 1 else 0
  }

  function SoftwareAt(d: Device): nat {
    HardwareAt(d) + if d.hardware.Some? then 1 else 0
  }

  function UsersAt(d: Device): nat {
    SoftwareAt(d) + |d.software|
  }

  /** Statement `j` of the script. */
  ghost predicate IsStatement(d: Device, j: nat, stmt: Stmt)
    requires ChildrenFit(d)
  {
    if j < 3 then stmt == Clear(if j == 0 then InterfaceTable else if j == 1 then SoftwareTable else UserTable)
    else if j < OsAt(d) then stmt == Insert(InterfaceBody(ToInterfaceRow(d.interfaces[j - 3])))
    else if j < HardwareAt(d) then stmt == PutOs(ToOsRow(d.os.value))
    else if j < SoftwareAt(d) then stmt == PutHardware(ToHardwareRow(d.hardware.value))
    else if j < UsersAt(d) then stmt == Insert(SoftwareBody(ToSoftwareRow(d.software[j - SoftwareAt(d)])))
    else j < UsersAt(d) + |d.users| && stmt == Insert(UserBody(ToUserRow(d.users[j - UsersAt(d)])))
  }

  lemma ScriptIs(d: Device, j: nat)
    requires ChildrenFit(d) && j < |Script(d)|
    ensures |Script(d)| == UsersAt(d) + |d.users|
    ensures IsStatement(d, j, Script(d)[j])
  {
    var a := [Clear(InterfaceTable), Clear(SoftwareTable), Clear(UserTable)];
    var b := InterfaceInserts(d.interfaces);
    var c := if d.os.Some? then [PutOs(ToOsRow(d.os.value))] else [];
    var e := if d.hardware.Some? then [PutHardware(ToHardwareRow(d.hardware.value))] else [];
    var f, g := SoftwareInserts(d.software), UserInserts(d.users);
    assert Script(d) == a + (b + c + e + f + g);
  }

  ghost predicate SidesOk(tx: Tx) {
    HasRow(tx) ==>
      var d := tx.u.device;
      && tx.os == (if d.os.Some? && Done(tx) > OsAt(d) then Some(ToOsRow(d.os.value)) else None)
      && (d.hardware.Some? && Done(tx) > HardwareAt(d) ==> HardwareFits(d.hardware.value))
      && tx.hardware == (if d.hardware.Some? && Done(tx) > HardwareAt(d)
                         then Some(ToHardwareRow(d.hardware.value)) else None)
  }

  lemma ExecKeepsSides(w: World, s: Step)
    requires Inv(w) && s.Exec? && Enabled(w, s) && SidesOk(w.txs[s.k])
    ensures SidesOk(Apply(w, s).txs[s.k])
  {
    var tx := w.txs[s.k];
    ScriptIs(tx.u.device, tx.phase.pc);
  }

  lemma EndKeepsSides(w: World, s: Step)
    requires Inv(w) && s.EndChildren? && Enabled(w, s) && SidesOk(w.txs[s.k])
    ensures SidesOk(Apply(w, s).txs[s.k])
  {
    assert TxOk(w.db, w.nextTx, s.k, w.txs[s.k]);
  }

  // ---- Running alone ----

  /** A statement of transaction `k` between its BEGIN and its COMMIT. */
  predicate Inner(s: Step, k: nat) {
    !s.Begin? && !s.Commit? && !s.Abort? && s.k == k
  }

  ghost predicate Alone(w: World, db: Db, t: Tables, u: Upsert, k: nat) {
    Inv(w) && w.db == db && k in w.txs && w.txs[k].u == u && Resolving(t, w.txs[k]) && SidesOk(w.txs[k])
  }

  lemma ReadsKeepSides(w: World, s: Step)
    requires Enabled(w, s) && (s.Look? || s.SeeRow? || s.SeeOs? || s.InsertRow? || s.UpdateRow? || s.LogOne?)
    requires SidesOk(w.txs[s.k])
    requires w.txs[s.k].phase.Write? ==> w.txs[s.k].os == None && w.txs[s.k].hardware == None
    ensures SidesOk(Apply(w, s).txs[s.k])
  {
  }

  lemma WorkResolves(w: World, t: Tables, s: Step)
    requires (s.Exec? || s.EndChildren? || s.LogOne?) && Enabled(w, s) && Resolving(t, w.txs[s.k])
    ensures Resolving(t, Apply(w, s).txs[s.k])
  {
  }

  lemma InnerKeepsAlone(w: World, db: Db, t: Tables, u: Upsert, k: nat, s: Step)
    requires Alone(w, db, t, u, k) && Represents(db, t) && Inner(s, k) && Enabled(w, s)
    ensures Alone(Apply(w, s), db, t, u, k)
  {
    StepKeepsInv(w, s);
    assert TxOk(w.db, w.nextTx, k, w.txs[k]);
    InnerKeepsResolving(w, t, s);
    if s.Exec? {
      ExecKeepsSides(w, s);
    } else if s.EndChildren? {
      EndKeepsSides(w, s);
    } else {
      ReadsKeepSides(w, s);
    }
    InnerKeepsFrame(w, s);
  }

  lemma InnerKeepsFrame(w: World, s: Step)
    requires !s.Begin? && Inner(s, s.k) && Enabled(w, s)
    ensures Apply(w, s).db == w.db && s.k in Apply(w, s).txs && Apply(w, s).txs[s.k].u == w.txs[s.k].u
  {
  }

  lemma InnerKeepsResolving(w: World, t: Tables, s: Step)
    requires !s.Begin? && Inner(s, s.k) && Enabled(w, s) && Inv(w) && Represents(w.db, t) && Resolving(t, w.txs[s.k])
    ensures s.k in Apply(w, s).txs && Resolving(t, Apply(w, s).txs[s.k])
  {
    if s.Look? {
      LookResolves(w, t, s);
    } else if s.Exec? || s.EndChildren? || s.LogOne? {
      WorkResolves(w, t, s);
    } else {
      ReadResolves(w, t, s);
    }
  }

  // ---- The commit ----

  function ReportedBodies(d: Device, table: Table): seq<ChildBody>
    requires ChildrenFit(d)
  {
    match table
    case InterfaceTable => seq(|d.interfaces|, i requires 0 <= i < |d.interfaces| =>
        InterfaceBody(ToInterfaceRow(d.interfaces[i])))
    case SoftwareTable => seq(|d.software|, i requires 0 <= i < |d.software| =>
        SoftwareBody(ToSoftwareRow(d.software[i])))
    case UserTable => seq(|d.users|, i requires 0 <= i < |d.users| => UserBody(ToUserRow(d.users[i])))
  }

  lemma ReplacedBodies(t: Tables, id: Id, d: Device, table: Table)
    requires ChildrenFit(d)
    ensures BodiesOf(ReplaceChildren(t, id, d), id, table) == ReportedBodies(d, table)
  {
    var after := ReplaceChildren(t, id, d);
    assert RowsOf(after.interfaces, id) == InterfaceRows(d.interfaces);
    assert RowsOf(after.software, id) == SoftwareRows(d.software);
    assert RowsOf(after.users, id) == UserRows(d.users);
  }

  function StartOf(d: Device, table: Table): nat {
    match table
    case InterfaceTable => 3
    case SoftwareTable => SoftwareAt(d)
    case UserTable => UsersAt(d)
  }

  /** Statement `j` inserts into `table` exactly within the table's stretch of the script. */
  lemma InsertsInto(d: Device, table: Table, j: nat)
    requires ChildrenFit(d) && j < |Script(d)|
    ensures var i := j - StartOf(d, table);
            && (Script(d)[j].Insert? && TableOf(Script(d)[j].body) == table <==> 0 <= i < |ReportedBodies(d, table)|)
            && (0 <= i < |ReportedBodies(d, table)| ==> Script(d)[j] == Insert(ReportedBodies(d, table)[i]))
  {
    ScriptIs(d, j);
  }

  lemma StretchFits(d: Device, table: Table)
    requires ChildrenFit(d)
    ensures StartOf(d, table) + |ReportedBodies(d, table)| <= |Script(d)|
  {
    ScriptIs(d, 0);
  }

  /** The rows of `id` are those transaction `k` inserted for `d`. */
  ghost predicate RowsAreInserted(children: map<RowId, ChildRow>, id: Id, k: nat, d: Device)
    requires ChildrenFit(d)
  {
    && (forall rid :: rid in children && children[rid].device == id <==> InsertedBy(rid, k, d, |Script(d)|))
    && (forall rid :: InsertedBy(rid, k, d, |Script(d)|) && rid in children ==>
        children[rid] == ChildRow(id, Script(d)[rid.stmt].body))
  }

  lemma ReportedIsStored(children: map<RowId, ChildRow>, id: Id, table: Table, k: nat, d: Device, i: nat)
    requires ChildrenFit(d) && RowsAreInserted(children, id, k, d) && i < |ReportedBodies(d, table)|
    ensures var rid := RowId(k, StartOf(d, table) + i);
            rid in children && children[rid] == ChildRow(id, ReportedBodies(d, table)[i])
  {
    StretchFits(d, table);
    InsertsInto(d, table, StartOf(d, table) + i);
    assert InsertedBy(RowId(k, StartOf(d, table) + i), k, d, |Script(d)|);
  }

  lemma StoredIsReported(children: map<RowId, ChildRow>, id: Id, table: Table, k: nat, d: Device, rid: RowId)
    requires ChildrenFit(d) && RowsAreInserted(children, id, k, d)
    requires rid in children && children[rid].device == id && TableOf(children[rid].body) == table
    ensures rid.tx == k && StartOf(d, table) <= rid.stmt < StartOf(d, table) + |ReportedBodies(d, table)|
  {
    assert InsertedBy(rid, k, d, |Script(d)|);
    InsertsInto(d, table, rid.stmt);
  }

  /** The rows that consecutive statements inserted, when there are no others, are listed in their order. */
  lemma StretchIsListed(
      children: map<RowId, ChildRow>, id: Id, table: Table, k: nat, start: nat, bodies: seq<ChildBody>)
    returns (order: seq<RowId>)
    requires forall i :: 0 <= i < |bodies| ==>
               RowId(k, start + i) in children && children[RowId(k, start + i)] == ChildRow(id, bodies[i])
    requires forall i :: 0 <= i < |bodies| ==> TableOf(bodies[i]) == table
    requires forall rid :: rid in children && children[rid].device == id && TableOf(children[rid].body) == table ==>
               rid.tx == k && start <= rid.stmt < start + |bodies|
    ensures Lists(children, id, table, order, bodies)
  {
    order := seq(|bodies|, i requires 0 <= i < |bodies| => RowId(k, start + i));
    forall i | 0 <= i < |order|
      ensures order[i] in children && children[order[i]] == ChildRow(id, bodies[i])
    {
      assert order[i] == RowId(k, start + i) && TableOf(bodies[i]) == table;
    }
    forall rid | rid in children && children[rid].device == id && TableOf(children[rid].body) == table
      ensures rid in order
    {
      assert order[rid.stmt - start] == rid;
    }
  }

  lemma ReportedTable(d: Device, table: Table, i: nat)
    requires ChildrenFit(d) && i < |ReportedBodies(d, table)|
    ensures TableOf(ReportedBodies(d, table)[i]) == table
  {
  }

  /** The committed rows of a device its last transaction collected are the reported ones, in script order. */
  lemma CollectedRowsListed(children: map<RowId, ChildRow>, t: Tables, id: Id, table: Table, k: nat, d: Device)
    requires ChildrenFit(d) && RowsAreInserted(children, id, k, d)
    ensures Listed(children, ReplaceChildren(t, id, d), id, table)
  {
    var start, bodies := StartOf(d, table), ReportedBodies(d, table);
    forall i | 0 <= i < |bodies|
      ensures RowId(k, start + i) in children && children[RowId(k, start + i)] == ChildRow(id, bodies[i])
      ensures TableOf(bodies[i]) == table
    {
      ReportedIsStored(children, id, table, k, d, i);
      ReportedTable(d, table, i);
    }
    forall rid | rid in children && children[rid].device == id && TableOf(children[rid].body) == table
      ensures rid.tx == k && start <= rid.stmt < start + |bodies|
    {
      StoredIsReported(children, id, table, k, d, rid);
    }
    var order := StretchIsListed(children, id, table, k, start, bodies);
    ReplacedBodies(t, id, d, table);
  }

  /** Rows that no statement touched stay listed. */
  lemma KeptRowsListed(
      before: map<RowId, ChildRow>, now: map<RowId, ChildRow>, t: Tables, after: Tables, id: Id, table: Table)
    requires Listed(before, t, id, table) && BodiesOf(after, id, table) == BodiesOf(t, id, table)
    requires forall rid :: rid in before && before[rid].device == id ==> rid in now && now[rid] == before[rid]
    requires forall rid :: rid in now && now[rid].device == id ==> rid in before && now[rid] == before[rid]
    ensures Listed(now, after, id, table)
  {
    var order :| Lists(before, id, table, order, BodiesOf(t, id, table));
    assert Lists(now, id, table, order, BodiesOf(after, id, table));
  }

  /** The committed children are those the serial specification leaves. */
  lemma ChildrenRefine(db: Db, k: nat, tx: Tx, t: Tables, after: Tables, id: Id, table: Table)
    requires Represents(db, t) && tx.phase.Log? && WorkOk(db, k, tx)
    requires forall r :: r in db.children ==> r.tx != k
    requires tx.u.collected ==> ChildrenFit(tx.u.device) && after == ReplaceChildren(t, tx.id, tx.u.device)
    requires !tx.u.collected ==> after == t
    ensures Listed(Committed(db, tx).children, after, id, table)
  {
    var now := Committed(db, tx).children;
    assert Listed(db.children, t, id, table);
    if tx.u.collected && id == tx.id {
      forall rid {
        OwnRowsReplaced(db, k, tx, rid);
      }
      CollectedRowsListed(now, t, id, table, k, tx.u.device);
    } else {
      forall rid {
        OtherRowsStay(db, k, tx, rid);
      }
      OtherBodiesStay(t, after, tx.id, tx.u, id, table);
      KeptRowsListed(db.children, now, t, after, id, table);
    }
  }

  lemma OtherBodiesStay(t: Tables, after: Tables, written: Id, u: Upsert, id: Id, table: Table)
    requires u.collected ==> ChildrenFit(u.device) && after == ReplaceChildren(t, written, u.device) && id != written
    requires !u.collected ==> after == t
    ensures BodiesOf(after, id, table) == BodiesOf(t, id, table)
  {
    assert RowsOf(after.interfaces, id) == RowsOf(t.interfaces, id);
    assert RowsOf(after.software, id) == RowsOf(t.software, id);
    assert RowsOf(after.users, id) == RowsOf(t.users, id);
  }

  /** Only the children, the side rows and the child tables of the serial result differ from `t`. */
  ghost predicate SameChildTables(a: Tables, b: Tables) {
    a.interfaces == b.interfaces && a.software == b.software && a.users == b.users
  }

  lemma ListedDependsOnChildTables(children: map<RowId, ChildRow>, a: Tables, b: Tables, id: Id, table: Table)
    requires SameChildTables(a, b) && Listed(children, a, id, table)
    ensures Listed(children, b, id, table)
  {
    assert BodiesOf(a, id, table) == BodiesOf(b, id, table);
  }

  /** The serial upsert the transaction amounts to is accepted. */
  lemma WriteIsAccepted(w: World, db: Db, t: Tables, u: Upsert, k: nat)
    requires Alone(w, db, t, u, k) && Represents(db, t) && Enabled(w, Commit(k))
    ensures WriteFailure(t, u, TargetOf(w.txs[k])) == None
    ensures w.txs[k].row == WrittenRow(t, u.device, TargetOf(w.txs[k]), u.now)
    ensures w.txs[k].changes == ChangesOf(t, u.device, TargetOf(w.txs[k]))
  {
    assert TxOk(w.db, w.nextTx, k, w.txs[k]);
  }

  lemma SidesRefine(w: World, db: Db, t: Tables, u: Upsert, k: nat, after: Tables)
    requires Alone(w, db, t, u, k) && Represents(db, t) && Enabled(w, Commit(k))
    requires u.collected ==> ChildrenFit(u.device) && after == ReplaceChildren(t, w.txs[k].id, u.device)
    requires !u.collected ==> after == t
    ensures Committed(db, w.txs[k]).os == after.os && Committed(db, w.txs[k]).hardware == after.hardware
  {
    assert TxOk(w.db, w.nextTx, k, w.txs[k]);
    if u.collected {
      ScriptIs(u.device, 0);
    }
  }

  /** The child and side tables of the serial result are those after the replacement alone. */
  lemma UpsertedIs(t: Tables, u: Upsert, target: Option<Id>, replaced: Tables)
    requires (target.Some? ==> target.value in t.devices) && WriteFailure(t, u, target) == None
    requires var id := if target.Some? then target.value else u.newId;
             replaced == if u.collected then ReplaceChildren(t, id, u.device) else t
    ensures var id := if target.Some? then target.value else u.newId;
            Upserted(t, u, target) == replaced.(devices := t.devices[id := WrittenRow(t, u.device, target, u.now)],
                                                log := t.log + LogRows(id, u.run, ChangesOf(t, u.device, target)))
  {
  }

  lemma CommittedChildren(w: World, db: Db, t: Tables, u: Upsert, k: nat, replaced: Tables, after: Tables)
    requires Alone(w, db, t, u, k) && Represents(db, t) && Enabled(w, Commit(k)) && SameChildTables(replaced, after)
    requires u.collected ==> ChildrenFit(u.device) && replaced == ReplaceChildren(t, w.txs[k].id, u.device)
    requires !u.collected ==> replaced == t
    ensures forall id, table :: Listed(Committed(db, w.txs[k]).children, after, id, table)
  {
    var tx := w.txs[k];
    assert TxOk(w.db, w.nextTx, k, tx);
    forall id, table
      ensures Listed(Committed(db, tx).children, after, id, table)
    {
      ChildrenRefine(db, k, tx, t, replaced, id, table);
      ListedDependsOnChildTables(Committed(db, tx).children, replaced, after, id, table);
    }
  }

  /** Committing gives a result of the serial specification. */
  lemma CommitRefines(w: World, db: Db, t: Tables, u: Upsert, k: nat)
    requires Alone(w, db, t, u, k) && Represents(db, t) && Enabled(w, Commit(k))
    ensures WriteFailure(t, u, TargetOf(w.txs[k])) == None
    ensures Commits(t, u, TargetOf(w.txs[k]), Upserted(t, u, TargetOf(w.txs[k])))
    ensures Represents(Committed(db, w.txs[k]), Upserted(t, u, TargetOf(w.txs[k])))
  {
    var tx := w.txs[k];
    var target := TargetOf(tx);
    WriteIsAccepted(w, db, t, u, k);
    var after := Upserted(t, u, target);
    var replaced := if u.collected then ReplaceChildren(t, tx.id, u.device) else t;
    UpsertedIs(t, u, target, replaced);
    SidesRefine(w, db, t, u, k, replaced);
    CommittedChildren(w, db, t, u, k, replaced, after);
  }

  // ---- Main result ----

  /** The steps of one transaction, from its BEGIN on, with nobody else in between. */
  ghost predicate RunsAlone(steps: seq<Step>, worlds: seq<World>, u: Upsert, k: nat) {
    && |worlds| == |steps| + 1 && |steps| > 0
    && Inv(worlds[0]) && worlds[0].nextTx == k
    && steps[0] == Begin(u)
    && (forall i :: 0 < i < |steps| ==> Inner(steps[i], k))
    && (forall i :: 0 <= i < |steps| ==> Enabled(worlds[i], steps[i]) && worlds[i + 1] == Apply(worlds[i], steps[i]))
  }

  lemma {:induction false} StaysAlone(steps: seq<Step>, worlds: seq<World>, u: Upsert, k: nat, t: Tables, i: nat)
    requires RunsAlone(steps, worlds, u, k) && Represents(worlds[0].db, t) && 0 < i <= |steps|
    ensures Alone(worlds[i], worlds[0].db, t, u, k)
  {
    if i == 1 {
      StepKeepsInv(worlds[0], steps[0]);
    } else {
      StaysAlone(steps, worlds, u, k, t, i - 1);
      InnerKeepsAlone(worlds[i - 1], worlds[0].db, t, u, k, steps[i - 1]);
    }
  }

  /** A transaction whose statements all run without another's in between commits, on any view of the
      state it started from, what the serial upsert may commit there. */
  lemma SerialRunRefinesUpsert(steps: seq<Step>, worlds: seq<World>, u: Upsert, k: nat, t: Tables)
    requires RunsAlone(steps, worlds, u, k) && Represents(worlds[0].db, t)
    requires Enabled(worlds[|steps|], Commit(k))
    ensures exists target: Option<Id>, after: Tables ::
              Commits(t, u, target, after) && Represents(Apply(worlds[|steps|], Commit(k)).db, after)
  {
    StaysAlone(steps, worlds, u, k, t, |steps|);
    CommitRefines(worlds[|steps|], worlds[0].db, t, u, k);
  }

  // ---- Every reachable database has a consistent view ----

  /** The view after a commit: the children replaced in `t`, everything else as committed. */
  ghost function NextView(t: Tables, tx: Tx, db: Db): Tables
    requires tx.u.collected ==> ChildrenFit(tx.u.device)
  {
    var replaced := if tx.u.collected then ReplaceChildren(t, tx.id, tx.u.device) else t;
    replaced.(devices := db.devices, os := db.os, hardware := db.hardware, log := db.log)
  }

  lemma ReplacedChildrenExist(t: Tables, id: Id, d: Device, ids: set<Id>)
    requires ChildrenFit(d) && id in ids
    requires t.interfaces.Keys <= ids && t.software.Keys <= ids && t.users.Keys <= ids
    ensures var r := ReplaceChildren(t, id, d);
            r.interfaces.Keys <= ids && r.software.Keys <= ids && r.users.Keys <= ids
  {
    PutRowsKeys(t.interfaces, id, InterfaceRows(d.interfaces), ids);
    PutRowsKeys(t.software, id, SoftwareRows(d.software), ids);
    PutRowsKeys(t.users, id, UserRows(d.users), ids);
  }

  lemma NextViewIsConsistent(w: World, k: nat, t: Tables)
    requires Inv(w) && LogOk(w.db) && Enabled(w, Commit(k)) && Represents(w.db, t) && Consistent(t)
    requires w.txs[k].u.collected ==> ChildrenFit(w.txs[k].u.device)
    ensures Consistent(NextView(t, w.txs[k], Committed(w.db, w.txs[k])))
  {
    var tx := w.txs[k];
    CommitKeepsDb(w, k);
    CommitKeepsLogOk(w.db, tx);
    if tx.u.collected {
      ReplacedChildrenExist(t, tx.id, tx.u.device, Committed(w.db, tx).devices.Keys);
    }
  }

  lemma NextViewRepresents(w: World, k: nat, t: Tables)
    requires Inv(w) && Enabled(w, Commit(k)) && Represents(w.db, t)
    ensures w.txs[k].u.collected ==> ChildrenFit(w.txs[k].u.device)
    ensures Represents(Committed(w.db, w.txs[k]), NextView(t, w.txs[k], Committed(w.db, w.txs[k])))
  {
    var tx := w.txs[k];
    assert TxOk(w.db, w.nextTx, k, tx);
    var after := NextView(t, tx, Committed(w.db, tx));
    var replaced := if tx.u.collected then ReplaceChildren(t, tx.id, tx.u.device) else t;
    forall id, table
      ensures Listed(Committed(w.db, tx).children, after, id, table)
    {
      ChildrenRefine(w.db, k, tx, t, replaced, id, table);
      ListedDependsOnChildTables(Committed(w.db, tx).children, replaced, after, id, table);
    }
  }

  /** On every interleaving every committed database is the row-by-row form of some consistent tables. */
  lemma {:induction false} EveryStateHasAView(steps: seq<Step>, worlds: seq<World>, i: nat) returns (t: Tables)
    requires IsInterleaving(steps, worlds) && i <= |steps|
    ensures Represents(worlds[i].db, t) && Consistent(t)
  {
    if i == 0 {
      EmptyRepresentsEmpty();
      t := EMPTY_TABLES;
    } else {
      t := EveryStateHasAView(steps, worlds, i - 1);
      RunInv(steps, worlds, i - 1);
      RunLogOk(steps, worlds, i - 1);
      OnlyCommitWrites(worlds[i - 1], steps[i - 1]);
      if steps[i - 1].Commit? {
        var k := steps[i - 1].k;
        NextViewRepresents(worlds[i - 1], k, t);
        NextViewIsConsistent(worlds[i - 1], k, t);
        t := NextView(t, worlds[i - 1].txs[k], worlds[i].db);
      }
    }
  }

  // ---- Serial interleavings are runs of the one-step upsert ----

  /** No transaction begins before the one before it committed or rolled back. */
  ghost predicate IsSerial(steps: seq<Step>, worlds: seq<World>) {
    && IsInterleaving(steps, worlds)
    && forall i :: 0 <= i < |steps| && steps[i].Begin? ==> worlds[i].txs == map[]
  }

  /** The same call, whatever id a new row would get. */
  predicate SameCall(u: Upsert, v: Upsert) {
    u.(newId := v.newId) == v
  }

  ghost predicate IsBeginOf(s: Step, v: Upsert) {
    s.Begin? && SameCall(s.u, v)
  }

  /** The calls some transaction was begun with. */
  ghost function Begun(steps: seq<Step>): Upsert -> bool {
    (v: Upsert) => exists i :: 0 <= i < |steps| && IsBeginOf(steps[i], v)
  }

  lemma {:induction false} UnusedId(ids: set<Id>) returns (id: Id)
    ensures id !in ids && forall k :: k in ids ==> k < id
  {
    if ids == {} {
      id := 0;
    } else {
      var k :| k in ids;
      var below := UnusedId(ids - {k});
      id := if k < below then below else k + 1;
      assert forall j :: j in ids ==> j == k || j in ids - {k};
    }
  }

  /** An update does not look at the id a new row would get. */
  lemma UpdateIgnoresNewId(t: Tables, u: Upsert, id: Id, newId: Id)
    requires id in t.devices && WriteFailure(t, u, Some(id)) == None
    ensures WriteFailure(t, u.(newId := newId), Some(id)) == None
    ensures Upserted(t, u.(newId := newId), Some(id)) == Upserted(t, u, Some(id))
  {
  }

  /** A commit is a step of a run of the calls begun. */
  lemma CommitIsStep(w: World, t: Tables, k: nat, sent: Upsert -> bool)
    requires Inv(w) && k in w.txs && Alone(w, w.db, t, w.txs[k].u, k) && Represents(w.db, t) && Enabled(w, Commit(k))
    requires forall v :: SameCall(w.txs[k].u, v) ==> sent(v)
    ensures WriteFailure(t, w.txs[k].u, TargetOf(w.txs[k])) == None
    ensures Timeline.Step(t, Upserted(t, w.txs[k].u, TargetOf(w.txs[k])), sent)
  {
    var u, target := w.txs[k].u, TargetOf(w.txs[k]);
    CommitRefines(w, w.db, t, u, k);
    var v := u;
    if target.Some? {
      var unused := UnusedId(t.devices.Keys);
      v := u.(newId := unused);
      UpdateIgnoresNewId(t, u, target.value, unused);
    }
    assert SameCall(u, v) && v.newId !in t.devices;
    assert Commits(t, v, target, Upserted(t, u, target));
  }

  /** The one open transaction, if any, has read what `t` says and done its work so far. */
  ghost predicate OpenOk(w: World, t: Tables) {
    && (forall k, m :: k in w.txs && m in w.txs ==> k == m)
    && (forall k :: k in w.txs ==> Resolving(t, w.txs[k]) && SidesOk(w.txs[k]))
  }

  lemma BeginKeepsOpen(w: World, t: Tables, s: Step)
    requires s.Begin? && w.txs == map[]
    ensures OpenOk(Apply(w, s), t)
  {
  }

  lemma CloseKeepsOpen(w: World, t: Tables, after: Tables, s: Step)
    requires (s.Commit? || s.Abort?) && Enabled(w, s) && OpenOk(w, t)
    ensures OpenOk(Apply(w, s), after)
  {
  }

  lemma InnerKeepsOpen(w: World, t: Tables, s: Step)
    requires Inv(w) && Represents(w.db, t) && OpenOk(w, t) && Enabled(w, s) && !s.Begin? && Inner(s, s.k)
    ensures OpenOk(Apply(w, s), t)
  {
    InnerKeepsAlone(w, w.db, t, w.txs[s.k].u, s.k, s);
    InnerKeepsOthers(w, s);
  }

  lemma InnerKeepsOthers(w: World, s: Step)
    requires Enabled(w, s) && !s.Begin? && Inner(s, s.k)
    ensures Apply(w, s).txs.Keys == w.txs.Keys
  {
  }

  /** The view after one step of a serial interleaving. */
  lemma SerialStep(w: World, t: Tables, s: Step, sent: Upsert -> bool) returns (after: Tables)
    requires Inv(w) && Represents(w.db, t) && OpenOk(w, t) && Enabled(w, s)
    requires s.Begin? ==> w.txs == map[]
    requires s.Commit? ==> forall v :: SameCall(w.txs[s.k].u, v) ==> sent(v)
    ensures Timeline.Step(t, after, sent) && Represents(Apply(w, s).db, after) && OpenOk(Apply(w, s), after)
  {
    OnlyCommitWrites(w, s);
    after := t;
    if s.Begin? {
      BeginKeepsOpen(w, t, s);
    } else if s.Commit? {
      var tx := w.txs[s.k];
      CommitIsStep(w, t, s.k, sent);
      CommitRefines(w, w.db, t, tx.u, s.k);
      after := Upserted(t, tx.u, TargetOf(tx));
      CloseKeepsOpen(w, t, after, s);
    } else if s.Abort? {
      CloseKeepsOpen(w, t, after, s);
    } else {
      InnerKeepsOpen(w, t, s);
    }
  }

  /** `history` views the committed databases of an interleaving, state by state. */
  ghost predicate Views(history: seq<Tables>, worlds: seq<World>) {
    |history| <= |worlds| && forall i :: 0 <= i < |history| ==> Represents(worlds[i].db, history[i])
  }

  lemma CommittedWasBegun(steps: seq<Step>, worlds: seq<World>, i: nat)
    requires IsInterleaving(steps, worlds) && i < |steps| && steps[i].Commit?
    ensures forall v :: SameCall(worlds[i].txs[steps[i].k].u, v) ==> Begun(steps)(v)
  {
    var b := WasBegun(steps, worlds, i, steps[i].k);
    forall v | SameCall(worlds[i].txs[steps[i].k].u, v)
      ensures Begun(steps)(v)
    {
      assert IsBeginOf(steps[b], v);
    }
  }

  /**
   Transactions that run one after another, rolled back or not, are a run of the one-step upsert with the
   calls they were begun with: its states are the committed databases.
   */
  lemma {:induction false} SerialIsRun(steps: seq<Step>, worlds: seq<World>, i: nat) returns (history: seq<Tables>)
    requires IsSerial(steps, worlds) && i <= |steps|
    ensures |history| == i + 1 && IsRun(history, Begun(steps)) && Views(history, worlds)
    ensures OpenOk(worlds[i], history[i])
  {
    if i == 0 {
      EmptyRepresentsEmpty();
      history := [EMPTY_TABLES];
    } else {
      history := SerialIsRun(steps, worlds, i - 1);
      RunInv(steps, worlds, i - 1);
      if steps[i - 1].Commit? {
        CommittedWasBegun(steps, worlds, i - 1);
      }
      var after := SerialStep(worlds[i - 1], history[i - 1], steps[i - 1], Begun(steps));
      RunOneMore(history, after, Begun(steps));
      history := history + [after];
    }
  }

  /** All the scalars of a committed device. */
  function DbScalars(db: Db, id: Id): Scalars
    requires id in db.devices
  {
    ScalarsOf(EMPTY_TABLES.(devices := db.devices, os := db.os), id)
  }

  /** What every transaction was begun with. */
  ghost predicate BeginsFaithfully(steps: seq<Step>, fields: set<Field>) {
    forall i :: 0 <= i < |steps| && steps[i].Begin? ==> SendsFaithfully(steps[i].u, fields)
  }

  /** So the timeline theorem holds of them, statement by statement: a device's committed events replay from
      its scalars at insertion to its scalars in any later committed database. */
  lemma SerialTimelineReplays(steps: seq<Step>, worlds: seq<World>, fields: set<Field>, id: Id, i: nat, j: nat)
    requires IsSerial(steps, worlds) && BeginsFaithfully(steps, fields)
    requires i < j <= |steps| && id !in worlds[i].db.devices && id in worlds[i + 1].db.devices
    ensures id in worlds[j].db.devices
    ensures var r := Replay(DbScalars(worlds[i + 1].db, id), EventsOf(worlds[j].db.log, id), fields);
            r.Some? && AgreeOn(fields, r.value, DbScalars(worlds[j].db, id))
  {
    var history := SerialIsRun(steps, worlds, |steps|);
    forall v | Begun(steps)(v)
      ensures SendsFaithfully(v, fields)
    {
      var b :| 0 <= b < |steps| && IsBeginOf(steps[b], v);
      assert SendsFaithfully(steps[b].u, fields);
    }
    assert Represents(worlds[i].db, history[i]) && Represents(worlds[i + 1].db, history[i + 1]);
    assert Represents(worlds[j].db, history[j]);
    TimelineReplays(history, Begun(steps), fields, id, i, j);
  }
}
