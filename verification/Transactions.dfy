/**
 Concurrent upserts, interleaved statement by statement at PostgreSQL's READ COMMITTED level.

 Every query reads what is committed when it runs.  A transaction that has written a device row holds
 that row's lock, and its unique keys, until it commits or rolls back; an UPDATE evaluates COALESCE on
 the row committed when it gets the lock.  A transaction that would have to wait simply has no step.
 Any transaction may roll back at any time.
 */
module Transactions {
  import opened Wrappers
  import opened Inventory
  import opened Timeline

  datatype Table = InterfaceTable | SoftwareTable | UserTable

  datatype ChildBody =
    | InterfaceBody(interface: InterfaceRow)
    | SoftwareBody(software: SoftwareRow)
    | UserBody(user: UserRow)

  function TableOf(b: ChildBody): Table {
    match b
    case InterfaceBody(_) => InterfaceTable
    case SoftwareBody(_) => SoftwareTable
    case UserBody(_) => UserTable
  }

  /** A row's UUID, named after the transaction and the statement that inserted it. */
  datatype RowId = RowId(tx: nat, stmt: nat)
  datatype ChildRow = ChildRow(device: Id, body: ChildBody)

  /** The statements that replace a device's children, in program order. */
  datatype Stmt = Clear(table: Table) | Insert(body: ChildBody) | PutOs(os: OsRow) | PutHardware(hardware: HardwareRow)

  function InterfaceInserts(s: seq<Interface>): seq<Stmt>
    requires forall i :: 0 <= i < |s| ==> InterfaceFits(s[i])
  {
    seq(|s|, i requires 0 <= i < |s| => Insert(InterfaceBody(ToInterfaceRow(s[i]))))
  }

  function SoftwareInserts(s: seq<Software>): seq<Stmt> {
    seq(|s|, i requires 0 <= i < |s| => Insert(SoftwareBody(ToSoftwareRow(s[i]))))
  }

  function UserInserts(s: seq<UserAccount>): seq<Stmt> {
    seq(|s|, i requires 0 <= i < |s| => Insert(UserBody(ToUserRow(s[i]))))
  }

  function Writes(d: Device): (w: seq<Stmt>)
    requires ChildrenFit(d)
    ensures forall i :: 0 <= i < |w| ==> !w[i].Clear?
  {
    InterfaceInserts(d.interfaces)
    + (if d.os.Some? then [PutOs(ToOsRow(d.os.value))] else [])
    + (if d.hardware.Some? then [PutHardware(ToHardwareRow(d.hardware.value))] else [])
    + SoftwareInserts(d.software)
    + UserInserts(d.users)
  }

  function Script(d: Device): (s: seq<Stmt>)
    requires ChildrenFit(d)
    ensures |s| >= 3 && s[0] == Clear(InterfaceTable) && s[1] == Clear(SoftwareTable) && s[2] == Clear(UserTable)
    ensures forall i :: 3 <= i < |s| ==> !s[i].Clear?
  {
    [Clear(InterfaceTable), Clear(SoftwareTable), Clear(UserTable)] + Writes(d)
  }

  // ---- States ----

  /** What is committed. */
  datatype Db = Db(
    devices: map<Id, DeviceRow>, children: map<RowId, ChildRow>,
    os: map<Id, OsRow>, hardware: map<Id, HardwareRow>, log: seq<ChangeRow>)

  datatype Phase =
    | Attempt(level: nat)                      // about to send the query of this level
    | ReadRow(id: Id)                          // about to read the matched device's scalars
    | ReadOs(id: Id, seen: Scalars)            // about to read its OS facts
    | Write(target: Option<Id>, seen: Scalars) // about to INSERT or UPDATE the device row
    | Children(pc: nat)                        // about to run statement pc of the script
    | Log(pc: nat)                             // about to insert change event pc, or to commit

  /** An open transaction; everything from `id` on is its uncommitted work. */
  datatype Tx = Tx(
    u: Upsert, phase: Phase, isNew: bool, id: Id, row: DeviceRow, seen: Scalars,
    deleted: set<RowId>, added: map<RowId, ChildRow>, os: Option<OsRow>, hardware: Option<HardwareRow>,
        changes: seq<Change>)

  /** `collectedBy` is history: the last committed collecting transaction of each device. */
  datatype World = World(db: Db, txs: map<nat, Tx>, nextTx: nat, collectedBy: map<Id, (nat, Device)>)

  const INIT := World(Db(map[], map[], map[], map[], []), map[], 0, map[])

  const NO_ROW := DeviceRow("", None, None, None, None, None, None, 0, 0, 0)

  function Opened(u: Upsert): Tx {
    Tx(u, Attempt(0), false, 0, NO_ROW, BLANK, {}, map[], None, None, [])
  }

  predicate HasRow(tx: Tx) {
    tx.phase.Children? || tx.phase.Log?
  }

  /** The scalars of the device table alone. */
  function RowScalars(r: DeviceRow): Scalars {
    Scalars(r.kind, Text(r.hostname), Text(r.primaryIp), Text(r.serial), "", "")
  }

  const ROW_FIELDS := {Hostname, PrimaryIp, Serial, DeviceType}

  /** What a level's query may return on the committed tables. */
  ghost function Hits(db: Db, d: Device, level: nat): set<Id> {
    if level == 2 then
      set rid | rid in db.children && db.children[rid].body.InterfaceBody? &&
                HasAnyMac([db.children[rid].body.interface], MacsOf(d.interfaces)) :: db.children[rid].device
    else
      Candidates(EMPTY_TABLES.(devices := db.devices), d, level)
  }

  /** No committed row and no other transaction's row shares a unique key with `row`. */
  ghost predicate Free(w: World, k: nat, id: Id, row: DeviceRow) {
    && !Conflicts(w.db.devices, id, row)
    && forall m :: m in w.txs && m != k && HasRow(w.txs[m]) ==> !SameUniqueKey(w.txs[m].row, row)
  }

  /** Nobody else holds the lock of device `id`. */
  ghost predicate Unlocked(w: World, k: nat, id: Id) {
    forall m :: m in w.txs && m != k && HasRow(w.txs[m]) ==> w.txs[m].id != id
  }

  datatype Step =
    | Begin(u: Upsert)
    | Look(k: nat, hit: Option<Id>)
    | SeeRow(k: nat)
    | SeeOs(k: nat)
    | InsertRow(k: nat)
    | UpdateRow(k: nat)
    | Exec(k: nat)
    | EndChildren(k: nat)
    | LogOne(k: nat)
    | Commit(k: nat)
    | Abort(k: nat)

  ghost predicate Enabled(w: World, s: Step) {
    s.Begin? || (s.k in w.txs && Ready(w, w.txs[s.k], s))
  }

  ghost predicate Ready(w: World, tx: Tx, s: Step) {
    var d := tx.u.device;
    match s
    case Begin(_) => true
    case Look(k, hit) =>
      && tx.phase.Attempt?
      && (hit.Some? ==> tx.phase.level < LEVELS && hit.value in Hits(w.db, d, tx.phase.level))
      && (hit.None? && tx.phase.level < LEVELS ==> Hits(w.db, d, tx.phase.level) == {})
      && !(HasKey(d, tx.phase.level) && KeyMisfits(d, tx.phase.level))
    case SeeRow(k) => tx.phase.ReadRow? && tx.phase.id in w.db.devices
    case SeeOs(k) => tx.phase.ReadOs?
    case InsertRow(k) =>
      && tx.phase.Write? && tx.phase.target.None?
      && InetFits(d.primaryIp)
      && tx.u.newId !in w.db.devices && Unlocked(w, k, tx.u.newId)
      && Free(w, k, tx.u.newId, NewRow(d, tx.u.now))
    case UpdateRow(k) =>
      && tx.phase.Write? && tx.phase.target.Some? && tx.phase.target.value in w.db.devices
      && InetFits(d.primaryIp)
      && Unlocked(w, k, tx.phase.target.value)
      && Free(w, k, tx.phase.target.value, Overlay(w.db.devices[tx.phase.target.value], d, tx.u.now))
    case Exec(k) => tx.phase.Children? && ChildrenFit(d) && tx.phase.pc < |Script(d)|
    case EndChildren(k) => tx.phase.Children? && ChildrenFit(d) && tx.phase.pc == |Script(d)|
    case LogOne(k) => tx.phase.Log? && tx.phase.pc < |tx.changes|
    case Commit(k) => tx.phase.Log? && tx.phase.pc == |tx.changes|
    case Abort(k) => true
  }

  function Looked(tx: Tx, hit: Option<Id>): Tx
    requires tx.phase.Attempt?
  {
    tx.(phase := if hit.Some? then ReadRow(hit.value)
                 else if tx.phase.level < LEVELS then Attempt(tx.phase.level + 1)
                 else Write(None, BLANK))
  }

  /** A device row on its way into the table, with what the diff against the snapshot reports. */
  function Wrote(tx: Tx, isNew: bool, id: Id, row: DeviceRow, seen: Scalars, changes: seq<Change>): Tx {
    tx.(phase := if tx.u.collected then Children(0) else Log(0),
        isNew := isNew, id := id, row := row, seen := seen, changes := changes)
  }

  ghost function Executed(db: Db, k: nat, tx: Tx): (r: Tx)
    requires tx.phase.Children? && ChildrenFit(tx.u.device) && tx.phase.pc < |Script(tx.u.device)|
    ensures r.phase == Children(tx.phase.pc + 1)
    ensures r.u == tx.u && r.id == tx.id && r.row == tx.row && r.isNew == tx.isNew && r.seen == tx.seen
            && r.changes == tx.changes
  {
    var next := tx.(phase := Children(tx.phase.pc + 1));
    match Script(tx.u.device)[tx.phase.pc]
    case Clear(table) =>
      next.(deleted := tx.deleted + (set rid | rid in db.children && db.children[rid].device == tx.id
                                               && TableOf(db.children[rid].body) == table),
            added := map rid | rid in tx.added && TableOf(tx.added[rid].body) != table :: tx.added[rid])
    case Insert(body) => next.(added := tx.added[RowId(k, tx.phase.pc) := ChildRow(tx.id, body)])
    case PutOs(os) => next.(os := Some(os))
    case PutHardware(hardware) => next.(hardware := Some(hardware))
  }

  function Committed(db: Db, tx: Tx): Db {
    Db(db.devices[tx.id := tx.row],
       (db.children - tx.deleted) + tx.added,
       if tx.os.Some? then db.os[tx.id := tx.os.value] else db.os,
       if tx.hardware.Some? then db.hardware[tx.id := tx.hardware.value] else db.hardware,
       db.log + LogRows(tx.id, tx.u.run, tx.changes))
  }

  ghost function Apply(w: World, s: Step): World
    requires Enabled(w, s)
  {
    if s.Begin? then w.(txs := w.txs[w.nextTx := Opened(s.u)], nextTx := w.nextTx + 1)
    else
      var tx := w.txs[s.k];
      match s
      case Look(k, hit) => w.(txs := w.txs[k := Looked(tx, hit)])
      case SeeRow(k) =>
        var r := w.db.devices[tx.phase.id];
        w.(txs := w.txs[k := tx.(phase := ReadOs(tx.phase.id, RowScalars(r)))])
      case SeeOs(k) =>
        var os := if tx.phase.id in w.db.os then w.db.os[tx.phase.id] else OsRow(None, None, None, None, None);
        var seen := tx.phase.seen.(osName := Text(os.name), osVersion := Text(os.version));
        w.(txs := w.txs[k := tx.(phase := Write(Some(tx.phase.id), seen))])
      case InsertRow(k) => w.(txs := w.txs[k := Wrote(tx, true, tx.u.newId, NewRow(tx.u.device, tx.u.now), BLANK, [])])
      case UpdateRow(k) =>
        var id := tx.phase.target.value;
        w.(txs := w.txs[k := Wrote(tx, false, id, Overlay(w.db.devices[id], tx.u.device, tx.u.now),
                                       tx.phase.seen, Diff(tx.phase.seen, tx.u.device))])
      case Exec(k) => w.(txs := w.txs[k := Executed(w.db, k, tx)])
      case EndChildren(k) => w.(txs := w.txs[k := tx.(phase := Log(0))])
      case LogOne(k) => w.(txs := w.txs[k := tx.(phase := Log(tx.phase.pc + 1))])
      case Commit(k) =>
        World(Committed(w.db, tx), w.txs - {k}, w.nextTx,
              if tx.u.collected then w.collectedBy[tx.id := (k, tx.u.device)] else w.collectedBy)
      case Abort(k) => w.(txs := w.txs - {k})
      case Begin(_) => w
  }

  ghost predicate IsInterleaving(steps: seq<Step>, worlds: seq<World>) {
    && |worlds| == |steps| + 1
    && worlds[0] == INIT
    && forall i :: 0 <= i < |steps| ==> Enabled(worlds[i], steps[i]) && worlds[i + 1] == Apply(worlds[i], steps[i])
  }

  // ---- The invariant ----

  /** `rid` is the row that statement `rid.stmt` of transaction `k`'s script inserts, once `pc` statements ran. */
  ghost predicate InsertedBy(rid: RowId, k: nat, d: Device, pc: nat)
    requires ChildrenFit(d)
  {
    rid.tx == k && rid.stmt < pc && rid.stmt < |Script(d)| && Script(d)[rid.stmt].Insert?
  }

  /** The child rows of `id` are exactly those its last committed collecting transaction inserted. */
  ghost predicate ExactChildren(children: map<RowId, ChildRow>, collectedBy: map<Id, (nat, Device)>, id: Id) {
    if id in collectedBy then
      var (k, d) := collectedBy[id];
      && ChildrenFit(d)
      && (forall rid :: rid in children && children[rid].device == id <==> InsertedBy(rid, k, d, |Script(d)|))
      && (forall rid :: InsertedBy(rid, k, d, |Script(d)|) && rid in children ==>
          children[rid] == ChildRow(id, Script(d)[rid.stmt].body))
    else
      forall rid :: rid in children ==> children[rid].device != id
  }

  ghost predicate DbOk(w: World) {
    && Unique(w.db.devices)
    && (forall rid :: rid in w.db.children ==>
          w.db.children[rid].device in w.db.devices && rid.tx < w.nextTx && rid.tx !in w.txs)
    && w.collectedBy.Keys <= w.db.devices.Keys
    && w.db.os.Keys <= w.db.devices.Keys
    && w.db.hardware.Keys <= w.db.devices.Keys
  }

  /** How many statements of the script have run. */
  ghost function Done(tx: Tx): nat
    requires HasRow(tx)
  {
    if tx.phase.Children? then tx.phase.pc
    else if tx.u.collected && ChildrenFit(tx.u.device) then |Script(tx.u.device)| else 0
  }

  function ClearedAt(t: Table): nat {
    match t
    case InterfaceTable => 0
    case SoftwareTable => 1
    case UserTable => 2
  }

  /** The uncommitted row is what its statement makes of the committed one, and conflicts with none. */
  ghost predicate RowOk(db: Db, tx: Tx) {
    && (if tx.isNew then tx.id !in db.devices && tx.row == NewRow(tx.u.device, tx.u.now) && tx.changes == []
        else
          && tx.id in db.devices
          && tx.row == Overlay(db.devices[tx.id], tx.u.device, tx.u.now)
          && tx.changes == Diff(tx.seen, tx.u.device))
    && !Conflicts(db.devices, tx.id, tx.row)
  }

  /** The uncommitted deletions and insertions are those of the statements run so far. */
  ghost predicate WorkOk(db: Db, k: nat, tx: Tx)
    requires HasRow(tx)
  {
    && (tx.phase.Children? ==> tx.u.collected)
    && (tx.phase.Log? && tx.u.collected ==> ChildrenFit(tx.u.device))
    && (Done(tx) == 0 ==> tx.deleted == {} && tx.added == map[])
    && (Done(tx) > 0 ==>
          && ChildrenFit(tx.u.device) && Done(tx) <= |Script(tx.u.device)|
          && (forall rid :: rid in tx.added <==> InsertedBy(rid, k, tx.u.device, Done(tx)))
          && (forall rid :: rid in tx.added ==> tx.added[rid] == ChildRow(tx.id, Script(tx.u.device)[rid.stmt].body))
          && (forall rid :: rid in tx.deleted <==>
                rid in db.children && db.children[rid].device == tx.id
                    && ClearedAt(TableOf(db.children[rid].body)) < Done(tx)))
  }

  ghost predicate TxOk(db: Db, nextTx: nat, k: nat, tx: Tx) {
    && k < nextTx
    && (tx.phase.ReadRow? ==> tx.phase.id in db.devices)
    && (tx.phase.ReadOs? ==> tx.phase.id in db.devices)
    && (tx.phase.Write? && tx.phase.target.Some? ==> tx.phase.target.value in db.devices)
    && (tx.phase.Log? ==> tx.phase.pc <= |tx.changes|)
    && (if HasRow(tx) then RowOk(db, tx) && WorkOk(db, k, tx)
        else tx.deleted == {} && tx.added == map[] && tx.os == None && tx.hardware == None)
  }

  /** Two open writers hold different devices and different keys. */
  ghost predicate Apart(w: World) {
    forall k, m :: k in w.txs && m in w.txs && k != m && HasRow(w.txs[k]) && HasRow(w.txs[m]) ==>
      w.txs[k].id != w.txs[m].id && !SameUniqueKey(w.txs[k].row, w.txs[m].row)
  }

  ghost predicate Inv(w: World) {
    && DbOk(w)
    && (forall id :: ExactChildren(w.db.children, w.collectedBy, id))
    && (forall k :: k in w.txs ==> TxOk(w.db, w.nextTx, k, w.txs[k]))
    && Apart(w)
  }

  // ---- Steps that touch only one transaction's private state ----

  lemma HitsExist(w: World, d: Device, level: nat, id: Id)
    requires DbOk(w) && id in Hits(w.db, d, level)
    ensures id in w.db.devices
  {
  }

  /** Replacing one transaction by a well-formed one keeps the rest. */
  lemma PrivateStep(w: World, k: nat, tx: Tx)
    requires Inv(w) && k in w.txs && TxOk(w.db, w.nextTx, k, tx)
    requires HasRow(tx) ==>
               forall m :: m in w.txs && m != k && HasRow(w.txs[m]) ==>
                   w.txs[m].id != tx.id && !SameUniqueKey(w.txs[m].row, tx.row)
    ensures Inv(w.(txs := w.txs[k := tx]))
  {
  }

  /** So does advancing a writer that keeps its device and its row. */
  lemma WriterStep(w: World, k: nat, tx: Tx)
    requires Inv(w) && k in w.txs && HasRow(w.txs[k]) && TxOk(w.db, w.nextTx, k, tx)
    requires tx.id == w.txs[k].id && tx.row == w.txs[k].row
    ensures Inv(w.(txs := w.txs[k := tx]))
  {
  }

  lemma ReadingKeepsInv(w: World, s: Step)
    requires Inv(w) && Enabled(w, s) && (s.Look? || s.SeeRow? || s.SeeOs?)
    ensures Inv(Apply(w, s))
  {
    var tx := w.txs[s.k];
    assert TxOk(w.db, w.nextTx, s.k, tx);
    if s.Look? && s.hit.Some? {
      HitsExist(w, tx.u.device, tx.phase.level, s.hit.value);
    }
    PrivateStep(w, s.k, Apply(w, s).txs[s.k]);
  }

  lemma WritingKeepsInv(w: World, s: Step)
    requires Inv(w) && Enabled(w, s) && (s.InsertRow? || s.UpdateRow?)
    ensures Inv(Apply(w, s))
  {
    assert TxOk(w.db, w.nextTx, s.k, w.txs[s.k]);
    PrivateStep(w, s.k, Apply(w, s).txs[s.k]);
  }

  lemma ClearKeepsWork(db: Db, k: nat, tx: Tx)
    requires tx.phase.Children? && WorkOk(db, k, tx) && ChildrenFit(tx.u.device) && tx.phase.pc < 3
    ensures WorkOk(db, k, Executed(db, k, tx))
  {
    var next := tx.phase.pc + 1;
    assert forall rid :: !InsertedBy(rid, k, tx.u.device, next);
  }

  lemma WriteKeepsWork(db: Db, k: nat, tx: Tx)
    requires tx.phase.Children? && WorkOk(db, k, tx) && ChildrenFit(tx.u.device)
            && 3 <= tx.phase.pc < |Script(tx.u.device)|
    ensures WorkOk(db, k, Executed(db, k, tx))
  {
    var pc := tx.phase.pc;
    var script := Script(tx.u.device);
    forall rid
      ensures InsertedBy(rid, k, tx.u.device, pc + 1) <==>
              InsertedBy(rid, k, tx.u.device, pc) || (rid == RowId(k, pc) && script[pc].Insert?)
    {
    }
    var tx' := Executed(db, k, tx);
    assert tx'.deleted == tx.deleted;
    assert tx'.added == if script[pc].Insert? then tx.added[RowId(k, pc) := ChildRow(tx.id, script[pc].body)]
        else tx.added;
    assert Done(tx') == pc + 1 && Done(tx) == pc;
  }

  lemma ExecKeepsTx(db: Db, nextTx: nat, k: nat, tx: Tx)
    requires TxOk(db, nextTx, k, tx)
    requires tx.phase.Children? && ChildrenFit(tx.u.device) && tx.phase.pc < |Script(tx.u.device)|
    ensures TxOk(db, nextTx, k, Executed(db, k, tx))
  {
    if tx.phase.pc < 3 {
      ClearKeepsWork(db, k, tx);
    } else {
      WriteKeepsWork(db, k, tx);
    }
  }

  lemma ExecKeepsInv(w: World, s: Step)
    requires Inv(w) && Enabled(w, s) && s.Exec?
    ensures Inv(Apply(w, s))
  {
    var tx := w.txs[s.k];
    assert TxOk(w.db, w.nextTx, s.k, tx);
    ExecKeepsTx(w.db, w.nextTx, s.k, tx);
    WriterStep(w, s.k, Executed(w.db, s.k, tx));
  }

  lemma AdvancingKeepsInv(w: World, s: Step)
    requires Inv(w) && Enabled(w, s) && (s.EndChildren? || s.LogOne?)
    ensures Inv(Apply(w, s))
  {
    assert TxOk(w.db, w.nextTx, s.k, w.txs[s.k]);
    WriterStep(w, s.k, Apply(w, s).txs[s.k]);
  }

  // ---- Opening and closing ----

  lemma TxOkLater(db: Db, nextTx: nat, k: nat, tx: Tx)
    requires TxOk(db, nextTx, k, tx)
    ensures TxOk(db, nextTx + 1, k, tx)
  {
  }

  lemma BeginKeepsInv(w: World, s: Step)
    requires Inv(w) && s.Begin?
    ensures Inv(Apply(w, s))
  {
    var w' := Apply(w, s);
    assert w.nextTx in w.txs ==> TxOk(w.db, w.nextTx, w.nextTx, w.txs[w.nextTx]);
    forall m | m in w'.txs
      ensures TxOk(w'.db, w'.nextTx, m, w'.txs[m])
    {
      if m != w.nextTx {
        TxOkLater(w.db, w.nextTx, m, w.txs[m]);
      }
    }
  }

  lemma AbortKeepsInv(w: World, s: Step)
    requires Inv(w) && Enabled(w, s) && s.Abort?
    ensures Inv(Apply(w, s))
  {
  }

  lemma CommitKeepsUnique(db: Db, tx: Tx)
    requires Unique(db.devices) && RowOk(db, tx)
    ensures Unique(db.devices[tx.id := tx.row])
  {
    var devices := db.devices[tx.id := tx.row];
    forall a, b | a in devices && b in devices && a != b
      ensures !SameUniqueKey(devices[a], devices[b])
    {
      if a != tx.id && b != tx.id {
        assert !SameUniqueKey(db.devices[a], db.devices[b]);
      }
    }
  }

  /** The rows of every device but the writer's stay; with nothing collected all do. */
  lemma OtherRowsStay(db: Db, k: nat, tx: Tx, rid: RowId)
    requires HasRow(tx) && WorkOk(db, k, tx)
    requires forall r :: r in db.children ==> r.tx != k
    ensures rid in db.children && (db.children[rid].device != tx.id || !tx.u.collected) ==>
              rid in Committed(db, tx).children && Committed(db, tx).children[rid] == db.children[rid]
    ensures rid in Committed(db, tx).children
            && (Committed(db, tx).children[rid].device != tx.id || !tx.u.collected) ==>
              rid in db.children && Committed(db, tx).children[rid] == db.children[rid]
  {
  }

  /** The writer's own device ends up with exactly the rows its script inserted. */
  lemma OwnRowsReplaced(db: Db, k: nat, tx: Tx, rid: RowId)
    requires tx.phase.Log? && WorkOk(db, k, tx) && tx.u.collected
    requires forall r :: r in db.children ==> r.tx != k
    ensures rid in Committed(db, tx).children && Committed(db, tx).children[rid].device == tx.id <==> rid in tx.added
    ensures rid in tx.added ==> Committed(db, tx).children[rid] == tx.added[rid]
  {
  }

  lemma CommitChildren(w: World, k: nat, id: Id)
    requires Inv(w) && Enabled(w, Commit(k))
    ensures ExactChildren(Apply(w, Commit(k)).db.children, Apply(w, Commit(k)).collectedBy, id)
  {
    var tx := w.txs[k];
    assert TxOk(w.db, w.nextTx, k, tx);
    assert ExactChildren(w.db.children, w.collectedBy, id);
    if id == tx.id && tx.u.collected {
      forall rid { OwnRowsReplaced(w.db, k, tx, rid); }
    } else {
      forall rid { OtherRowsStay(w.db, k, tx, rid); }
    }
  }

  lemma CommitKeepsDb(w: World, k: nat)
    requires Inv(w) && Enabled(w, Commit(k))
    ensures DbOk(Apply(w, Commit(k)))
  {
    var tx := w.txs[k];
    var w' := Apply(w, Commit(k));
    assert TxOk(w.db, w.nextTx, k, tx);
    CommitKeepsUnique(w.db, tx);
    forall rid | rid in w'.db.children
      ensures w'.db.children[rid].device in w'.db.devices && rid.tx < w'.nextTx && rid.tx !in w'.txs
    {
      assert rid in tx.added ==> rid.tx == k;
    }
  }

  lemma CommitKeepsOtherWork(db: Db, k: nat, tx: Tx, m: nat, other: Tx)
    requires HasRow(tx) && WorkOk(db, k, tx) && HasRow(other) && WorkOk(db, m, other)
    requires forall r :: r in db.children ==> r.tx != k
    requires other.id != tx.id
    ensures WorkOk(Committed(db, tx), m, other)
  {
    forall rid { OtherRowsStay(db, k, tx, rid); }
  }

  lemma CommitKeepsOthers(w: World, k: nat, m: nat)
    requires Inv(w) && Enabled(w, Commit(k)) && m in w.txs && m != k
    ensures TxOk(Committed(w.db, w.txs[k]), w.nextTx, m, w.txs[m])
  {
    var tx, other := w.txs[k], w.txs[m];
    assert TxOk(w.db, w.nextTx, k, tx) && TxOk(w.db, w.nextTx, m, other);
    if HasRow(other) {
      assert other.id != tx.id && !SameUniqueKey(tx.row, other.row);
      CommitKeepsOtherWork(w.db, k, tx, m, other);
    }
  }

  lemma CommitKeepsInv(w: World, s: Step)
    requires Inv(w) && Enabled(w, s) && s.Commit?
    ensures Inv(Apply(w, s))
  {
    var k := s.k;
    CommitKeepsDb(w, k);
    forall id { CommitChildren(w, k, id); }
    forall m | m in w.txs && m != k { CommitKeepsOthers(w, k, m); }
  }

  lemma StepKeepsInv(w: World, s: Step)
    requires Inv(w) && Enabled(w, s)
    ensures Inv(Apply(w, s))
  {
    match s {
      case Begin(_) => BeginKeepsInv(w, s);
      case Look(_, _) => ReadingKeepsInv(w, s);
      case SeeRow(_) => ReadingKeepsInv(w, s);
      case SeeOs(_) => ReadingKeepsInv(w, s);
      case InsertRow(_) => WritingKeepsInv(w, s);
      case UpdateRow(_) => WritingKeepsInv(w, s);
      case Exec(_) => ExecKeepsInv(w, s);
      case EndChildren(_) => AdvancingKeepsInv(w, s);
      case LogOne(_) => AdvancingKeepsInv(w, s);
      case Commit(_) => CommitKeepsInv(w, s);
      case Abort(_) => AbortKeepsInv(w, s);
    }
  }

  lemma {:induction false} RunInv(steps: seq<Step>, worlds: seq<World>, i: nat)
    requires IsInterleaving(steps, worlds) && i <= |steps|
    ensures Inv(worlds[i])
  {
    if i > 0 {
      RunInv(steps, worlds, i - 1);
      StepKeepsInv(worlds[i - 1], steps[i - 1]);
    }
  }

  lemma WriterIsReady(w: World, k: nat, tx: Tx)
    requires HasRow(tx) && TxOk(w.db, w.nextTx, k, tx) && (tx.phase.Children? ==> ChildrenFit(tx.u.device))
    ensures Ready(w, tx, Exec(k)) || Ready(w, tx, EndChildren(k)) || Ready(w, tx, LogOne(k)) || Ready(w, tx, Commit(k))
  {
  }

  /** A transaction that has written its device row never has to wait again: unless a column rejects what was
      collected, its next statement or its commit is possible. */
  lemma WriterMoves(steps: seq<Step>, worlds: seq<World>, i: nat, k: nat)
    requires IsInterleaving(steps, worlds) && i <= |steps| && k in worlds[i].txs && HasRow(worlds[i].txs[k])
    requires worlds[i].txs[k].phase.Children? ==> ChildrenFit(worlds[i].txs[k].u.device)
    ensures || Enabled(worlds[i], Exec(k)) || Enabled(worlds[i], EndChildren(k))
            || Enabled(worlds[i], LogOne(k)) || Enabled(worlds[i], Commit(k))
  {
    RunInv(steps, worlds, i);
    WriterIsReady(worlds[i], k, worlds[i].txs[k]);
  }

  // ---- Main results ----

  /** On every interleaving every committed state has at most one device per serial and per AD GUID. */
  lemma OneDevicePerKey(steps: seq<Step>, worlds: seq<World>, i: nat, a: Id, b: Id)
    requires IsInterleaving(steps, worlds) && i <= |steps|
    requires a in worlds[i].db.devices && b in worlds[i].db.devices && a != b
    ensures worlds[i].db.devices[a].serial.Some? ==> worlds[i].db.devices[a].serial != worlds[i].db.devices[b].serial
    ensures worlds[i].db.devices[a].adGuid.Some? ==> worlds[i].db.devices[a].adGuid != worlds[i].db.devices[b].adGuid
  {
    RunInv(steps, worlds, i);
    assert !SameUniqueKey(worlds[i].db.devices[a], worlds[i].db.devices[b]);
  }

  /** On every interleaving a device's interface, software and user rows are exactly those of its last
      committed collecting upsert, never a mix of two. */
  lemma ChildrenAreNeverMixed(steps: seq<Step>, worlds: seq<World>, i: nat, id: Id)
    requires IsInterleaving(steps, worlds) && i <= |steps|
    ensures ExactChildren(worlds[i].db.children, worlds[i].collectedBy, id)
  {
    RunInv(steps, worlds, i);
  }

  ghost predicate DbGrows(a: Db, b: Db) {
    && a.devices.Keys <= b.devices.Keys
    && (forall id :: id in a.devices ==> RowGrows(a.devices[id], b.devices[id]))
    && a.os.Keys <= b.os.Keys
    && a.hardware.Keys <= b.hardware.Keys
    && a.log <= b.log
  }

  lemma CommitGrows(db: Db, nextTx: nat, k: nat, tx: Tx)
    requires HasRow(tx) && TxOk(db, nextTx, k, tx)
    ensures DbGrows(db, Committed(db, tx))
  {
  }

  lemma DbGrowsTransitive(a: Db, b: Db, c: Db)
    requires DbGrows(a, b) && DbGrows(b, c)
    ensures DbGrows(a, c)
  {
    forall id | id in a.devices
      ensures id in c.devices && RowGrows(a.devices[id], c.devices[id])
    {
      assert RowGrows(a.devices[id], b.devices[id]);
      assert RowGrows(b.devices[id], c.devices[id]);
    }
  }

  /** Only a commit changes what is committed. */
  lemma OnlyCommitWrites(w: World, s: Step)
    requires Enabled(w, s)
    ensures Apply(w, s).db == if s.Commit? then Committed(w.db, w.txs[s.k]) else w.db
  {
  }

  lemma StepGrows(w: World, s: Step)
    requires Inv(w) && Enabled(w, s)
    ensures DbGrows(w.db, Apply(w, s).db)
  {
    OnlyCommitWrites(w, s);
    if s.Commit? {
      assert TxOk(w.db, w.nextTx, s.k, w.txs[s.k]);
      CommitGrows(w.db, w.nextTx, s.k, w.txs[s.k]);
    } else {
      DbGrowsReflexive(w.db);
    }
  }

  lemma ConsecutiveGrows(steps: seq<Step>, worlds: seq<World>, i: nat)
    requires IsInterleaving(steps, worlds) && i < |steps|
    ensures DbGrows(worlds[i].db, worlds[i + 1].db)
  {
    RunInv(steps, worlds, i);
    StepGrows(worlds[i], steps[i]);
  }

  lemma DbGrowsReflexive(a: Db)
    ensures DbGrows(a, a)
  {
  }

  /** On every interleaving no committed scalar ever becomes NULL and no device disappears. */
  lemma {:induction false} NothingIsErased(steps: seq<Step>, worlds: seq<World>, i: nat, j: nat)
    requires IsInterleaving(steps, worlds) && i <= j <= |steps|
    ensures DbGrows(worlds[i].db, worlds[j].db)
    decreases j
  {
    if i == j {
      DbGrowsReflexive(worlds[i].db);
    } else {
      NothingIsErased(steps, worlds, i, j - 1);
      ConsecutiveGrows(steps, worlds, j - 1);
      DbGrowsTransitive(worlds[i].db, worlds[j - 1].db, worlds[j].db);
    }
  }

  /** No lost updates: what a commit installs is the overlay of the row committed at that moment, even
      though its change events were computed from an older snapshot. */
  lemma CommitOverlaysCurrentRow(steps: seq<Step>, worlds: seq<World>, i: nat)
    requires IsInterleaving(steps, worlds) && i < |steps| && steps[i].Commit?
    ensures var tx := worlds[i].txs[steps[i].k];
            tx.id in worlds[i + 1].db.devices &&
            worlds[i + 1].db.devices[tx.id] ==
              if tx.id in worlds[i].db.devices then Overlay(worlds[i].db.devices[tx.id], tx.u.device, tx.u.now)
              else NewRow(tx.u.device, tx.u.now)
  {
    RunInv(steps, worlds, i);
    assert TxOk(worlds[i].db, worlds[i].nextTx, steps[i].k, worlds[i].txs[steps[i].k]);
  }

  // ---- The timeline between interleaved transactions ----

  /** No field the report brings moved between the snapshot `seen` and the row `now`. */
  ghost predicate Unmoved(seen: Scalars, now: Scalars, d: Device) {
    forall f :: f in ROW_FIELDS && Incoming(d, f) != "" ==> Get(seen, f) == Get(now, f)
  }

  /** The events of a report diffed against `seen` tell what it does to the row `now`: nothing moved, and
      its type is not the blank that is stored without an event. */
  ghost predicate Tells(seen: Scalars, now: Scalars, d: Device) {
    Unmoved(seen, now, d) && (d.kind == "" ==> now.kind == "")
  }

  lemma OverlayIsMerge(r: DeviceRow, d: Device, now: int, f: Field)
    requires f in ROW_FIELDS
    ensures d.kind != "" || f != DeviceType ==> Get(RowScalars(Overlay(r, d, now)), f) == Merged(RowScalars(r), d, f)
    ensures d.kind == "" && f == DeviceType ==> Get(RowScalars(Overlay(r, d, now)), f) == ""
  {
  }

  /** Replaying a diff over the row it is committed on gives the row it installs exactly when it tells. */
  lemma OverlayReplayIff(seen: Scalars, r: DeviceRow, d: Device, now: int)
    ensures var res := Replay(RowScalars(r), Diff(seen, d), ROW_FIELDS);
            (res.Some? && AgreeOn(ROW_FIELDS, res.value, RowScalars(Overlay(r, d, now)))) <==>
                Tells(seen, RowScalars(r), d)
  {
    var res := Replay(RowScalars(r), Diff(seen, d), ROW_FIELDS);
    SnapshotReplayIff(seen, RowScalars(r), d, ROW_FIELDS);
    forall f | f in ROW_FIELDS {
      OverlayIsMerge(r, d, now, f);
    }
    if res.Some? && d.kind == "" {
      UnreportedStays(seen, RowScalars(r), d, ROW_FIELDS, DeviceType);
    }
  }

  /**
   One commit.  Replaying the events it logs over the row it replaces gives the row it installs exactly
   when every field it reports still had, at the commit, the value in the snapshot its diff was taken
   against, and it does not blank a type.
   */
  lemma InterleavedTimelineIff(steps: seq<Step>, worlds: seq<World>, i: nat)
    requires IsInterleaving(steps, worlds) && i < |steps| && steps[i].Commit?
    requires worlds[i].txs[steps[i].k].id in worlds[i].db.devices
    ensures var tx := worlds[i].txs[steps[i].k];
            var now := RowScalars(worlds[i].db.devices[tx.id]);
            var r := Replay(now, tx.changes, ROW_FIELDS);
            && tx.id in worlds[i + 1].db.devices
            && ((r.Some? && AgreeOn(ROW_FIELDS, r.value, RowScalars(worlds[i + 1].db.devices[tx.id])))
                <==> Tells(tx.seen, now, tx.u.device))
  {
    RunInv(steps, worlds, i);
    var tx := worlds[i].txs[steps[i].k];
    assert TxOk(worlds[i].db, worlds[i].nextTx, steps[i].k, tx);
    OverlayReplayIff(tx.seen, worlds[i].db.devices[tx.id], tx.u.device, tx.u.now);
  }

  // ---- Whole interleavings ----

  /** Every logged event is about a stored device. */
  ghost predicate LogOk(db: Db) {
    forall i :: 0 <= i < |db.log| ==> db.log[i].device in db.devices
  }

  lemma CommitKeepsLogOk(db: Db, tx: Tx)
    requires LogOk(db)
    ensures LogOk(Committed(db, tx))
  {
  }

  lemma {:induction false} RunLogOk(steps: seq<Step>, worlds: seq<World>, i: nat)
    requires IsInterleaving(steps, worlds) && i <= |steps|
    ensures LogOk(worlds[i].db)
  {
    if i > 0 {
      RunLogOk(steps, worlds, i - 1);
      if steps[i - 1].Commit? {
        CommitKeepsLogOk(worlds[i - 1].db, worlds[i - 1].txs[steps[i - 1].k]);
      }
    }
  }

  /** The committed events about `id` lead from its scalars at birth to those of its committed row. */
  ghost predicate ExplainsRow(birth: Scalars, db: Db, id: Id) {
    && id in db.devices
    && var r := Replay(birth, EventsOf(db.log, id), ROW_FIELDS);
    && r.Some? && AgreeOn(ROW_FIELDS, r.value, RowScalars(db.devices[id]))
  }

  /** A commit about `id` tells what it does. */
  ghost predicate CommitTells(w: World, s: Step, id: Id) {
    s.Commit? && s.k in w.txs && w.txs[s.k].id == id && id in w.db.devices ==>
      Tells(w.txs[s.k].seen, RowScalars(w.db.devices[id]), w.txs[s.k].u.device)
  }

  lemma CommittedEvents(db: Db, tx: Tx, id: Id)
    ensures EventsOf(Committed(db, tx).log, id) == EventsOf(db.log, id) + if tx.id == id then tx.changes else []
  {
    EventsOfAppend(db.log, LogRows(tx.id, tx.u.run, tx.changes), id);
    EventsOfLogRows(tx.id, tx.u.run, tx.changes, id);
  }

  /** A commit keeps a device explained exactly when it tells. */
  lemma CommitExplainsIff(w: World, k: nat, birth: Scalars, id: Id)
    requires Inv(w) && Enabled(w, Commit(k)) && ExplainsRow(birth, w.db, id)
    ensures ExplainsRow(birth, Committed(w.db, w.txs[k]), id) <==> CommitTells(w, Commit(k), id)
  {
    var tx := w.txs[k];
    assert TxOk(w.db, w.nextTx, k, tx);
    CommittedEvents(w.db, tx, id);
    var past := EventsOf(w.db.log, id);
    if tx.id == id {
      var row := w.db.devices[id];
      ReplayJoins(birth, past, RowScalars(row), tx.changes, ROW_FIELDS);
      OverlayReplayIff(tx.seen, row, tx.u.device, tx.u.now);
    } else {
      assert past + [] == past;
    }
  }

  lemma StepExplainsIff(steps: seq<Step>, worlds: seq<World>, i: nat, birth: Scalars, id: Id)
    requires IsInterleaving(steps, worlds) && i < |steps| && ExplainsRow(birth, worlds[i].db, id)
    ensures ExplainsRow(birth, worlds[i + 1].db, id) <==> CommitTells(worlds[i], steps[i], id)
  {
    RunInv(steps, worlds, i);
    if steps[i].Commit? {
      CommitExplainsIff(worlds[i], steps[i].k, birth, id);
    }
  }

  /** A device starts with its own scalars and no events. */
  lemma BirthIsExplained(steps: seq<Step>, worlds: seq<World>, i: nat, id: Id)
    requires IsInterleaving(steps, worlds) && i < |steps|
    requires id !in worlds[i].db.devices && id in worlds[i + 1].db.devices
    ensures ExplainsRow(RowScalars(worlds[i + 1].db.devices[id]), worlds[i + 1].db, id)
  {
    RunInv(steps, worlds, i);
    RunLogOk(steps, worlds, i);
    NoEventsBefore(worlds[i].db.log, id);
    var tx := worlds[i].txs[steps[i].k];
    assert TxOk(worlds[i].db, worlds[i].nextTx, steps[i].k, tx);
    CommittedEvents(worlds[i].db, tx, id);
  }

  /** In every state from `first` to `last` the device is explained. */
  ghost predicate AlwaysExplained(worlds: seq<World>, birth: Scalars, id: Id, first: nat, last: nat)
    requires last < |worlds|
  {
    forall m :: first <= m <= last ==> ExplainsRow(birth, worlds[m].db, id)
  }

  /** Every commit about the device from `first` up to `last` tells what it does. */
  ghost predicate AllTell(steps: seq<Step>, worlds: seq<World>, id: Id, first: nat, last: nat)
    requires last <= |steps| < |worlds|
  {
    forall m :: first <= m < last ==> CommitTells(worlds[m], steps[m], id)
  }

  /** An explained device stays explained over step `m` exactly when the step tells. */
  ghost predicate StaysExplainedIff(steps: seq<Step>, worlds: seq<World>, birth: Scalars, id: Id, m: nat)
    requires m < |steps| < |worlds|
  {
    ExplainsRow(birth, worlds[m].db, id) ==>
      (ExplainsRow(birth, worlds[m + 1].db, id) <==> CommitTells(worlds[m], steps[m], id))
  }

  lemma {:induction false} ExplainedIffTold(
      steps: seq<Step>, worlds: seq<World>, birth: Scalars, id: Id, first: nat, last: nat)
    requires first <= last <= |steps| < |worlds| && ExplainsRow(birth, worlds[first].db, id)
    requires forall m :: first <= m < last ==> StaysExplainedIff(steps, worlds, birth, id, m)
    ensures AlwaysExplained(worlds, birth, id, first, last) <==> AllTell(steps, worlds, id, first, last)
    decreases last
  {
    if first < last {
      ExplainedIffTold(steps, worlds, birth, id, first, last - 1);
      assert StaysExplainedIff(steps, worlds, birth, id, last - 1);
    }
  }

  /**
   The timeline theorem for interleavings.  From the commit that inserted a device (step `i`) on, its
   committed events replay, in every state up to `j`, from its row at insertion to its current row exactly
   when every commit about it in between tells what it does.
   */
  lemma InterleavedTimelinesIff(steps: seq<Step>, worlds: seq<World>, id: Id, i: nat, j: nat)
    requires IsInterleaving(steps, worlds) && i < j <= |steps|
    requires id !in worlds[i].db.devices && id in worlds[i + 1].db.devices
    ensures AlwaysExplained(worlds, RowScalars(worlds[i + 1].db.devices[id]), id, i + 1, j)
            <==> AllTell(steps, worlds, id, i + 1, j)
  {
    var birth := RowScalars(worlds[i + 1].db.devices[id]);
    BirthIsExplained(steps, worlds, i, id);
    forall m | i + 1 <= m < j
      ensures StaysExplainedIff(steps, worlds, birth, id, m)
    {
      if ExplainsRow(birth, worlds[m].db, id) {
        StepExplainsIff(steps, worlds, m, birth, id);
      }
    }
    ExplainedIffTold(steps, worlds, birth, id, i + 1, j);
  }

  /** An open transaction was begun with its upsert. */
  lemma {:induction false} WasBegun(steps: seq<Step>, worlds: seq<World>, i: nat, k: nat) returns (b: nat)
    requires IsInterleaving(steps, worlds) && i <= |steps| && k in worlds[i].txs
    ensures b < i && steps[b] == Begin(worlds[i].txs[k].u)
  {
    var s := steps[i - 1];
    if s.Begin? && k == worlds[i - 1].nextTx {
      b := i - 1;
    } else {
      RunInv(steps, worlds, i - 1);
      assert s.Exec? && s.k == k ==> Executed(worlds[i - 1].db, k, worlds[i - 1].txs[k]).u == worlds[i - 1].txs[k].u;
      b := WasBegun(steps, worlds, i - 1, k);
    }
  }

  /** A commit about `id` reports nothing that moved since its snapshot. */
  ghost predicate CommitUnmoved(w: World, s: Step, id: Id) {
    s.Commit? && s.k in w.txs && w.txs[s.k].id == id && id in w.db.devices ==>
      Unmoved(w.txs[s.k].seen, RowScalars(w.db.devices[id]), w.txs[s.k].u.device)
  }

  lemma TypedTellsIff(steps: seq<Step>, worlds: seq<World>, id: Id, m: nat)
    requires IsInterleaving(steps, worlds) && m < |steps|
    requires forall b :: 0 <= b < |steps| && steps[b].Begin? ==> steps[b].u.device.kind != ""
    ensures CommitTells(worlds[m], steps[m], id) <==> CommitUnmoved(worlds[m], steps[m], id)
  {
    if steps[m].Commit? {
      var b := WasBegun(steps, worlds, m, steps[m].k);
      assert steps[b].u.device.kind != "";
    }
  }

  /** When every report has a type, the condition is on the snapshots alone. */
  lemma TypedTimelinesIff(steps: seq<Step>, worlds: seq<World>, id: Id, i: nat, j: nat)
    requires IsInterleaving(steps, worlds) && i < j <= |steps|
    requires id !in worlds[i].db.devices && id in worlds[i + 1].db.devices
    requires forall b :: 0 <= b < |steps| && steps[b].Begin? ==> steps[b].u.device.kind != ""
    ensures AlwaysExplained(worlds, RowScalars(worlds[i + 1].db.devices[id]), id, i + 1, j)
            <==> forall m :: i < m < j ==> CommitUnmoved(worlds[m], steps[m], id)
  {
    InterleavedTimelinesIff(steps, worlds, id, i, j);
    forall m | i < m < j
      ensures CommitTells(worlds[m], steps[m], id) <==> CommitUnmoved(worlds[m], steps[m], id)
    {
      TypedTellsIff(steps, worlds, id, m);
    }
  }

  // ---- Schedules on which every commit is unmoved ----

  /** The transaction has read the row of `id` and not finished with it. */
  predicate HasSnapshot(tx: Tx, id: Id) {
    || (tx.phase.ReadOs? && tx.phase.id == id)
    || (tx.phase.Write? && tx.phase.target == Some(id))
    || (HasRow(tx) && !tx.isNew && tx.id == id)
  }

  /** What it read of the device table. */
  function Snapshot(tx: Tx, id: Id): Scalars
    requires HasSnapshot(tx, id)
  {
    var seen := if HasRow(tx) then tx.seen else tx.phase.seen;
    seen.(osName := "", osVersion := "")
  }

  lemma SnapshotBefore(w: World, s: Step, k: nat, id: Id)
    requires Enabled(w, s) && k in Apply(w, s).txs && HasSnapshot(Apply(w, s).txs[k], id)
    ensures k in w.txs
    ensures if s == SeeRow(k) then
              id in w.db.devices && Snapshot(Apply(w, s).txs[k], id) == RowScalars(w.db.devices[id])
            else HasSnapshot(w.txs[k], id) && Snapshot(w.txs[k], id) == Snapshot(Apply(w, s).txs[k], id)
  {
  }

  /** A snapshot is the row as it was committed at the transaction's SeeRow. */
  lemma {:induction false} SnapshotWasSeen(steps: seq<Step>, worlds: seq<World>, i: nat, k: nat, id: Id)
    returns (s: nat)
    requires IsInterleaving(steps, worlds) && i <= |steps|
    requires k in worlds[i].txs && HasSnapshot(worlds[i].txs[k], id)
    ensures s < i && steps[s] == SeeRow(k) && id in worlds[s].db.devices
    ensures Snapshot(worlds[i].txs[k], id) == RowScalars(worlds[s].db.devices[id])
  {
    SnapshotBefore(worlds[i - 1], steps[i - 1], k, id);
    if steps[i - 1] == SeeRow(k) {
      s := i - 1;
    } else {
      s := SnapshotWasSeen(steps, worlds, i - 1, k, id);
    }
  }

  /** Step `n` commits an upsert of `id`. */
  ghost predicate CommitsAbout(steps: seq<Step>, worlds: seq<World>, n: nat, id: Id)
    requires n < |steps| < |worlds|
  {
    steps[n].Commit? && steps[n].k in worlds[n].txs && worlds[n].txs[steps[n].k].id == id
  }

  lemma {:induction false} RowStays(steps: seq<Step>, worlds: seq<World>, id: Id, first: nat, last: nat)
    requires IsInterleaving(steps, worlds) && first <= last <= |steps| && id in worlds[first].db.devices
    requires forall n :: first <= n < last ==> !CommitsAbout(steps, worlds, n, id)
    ensures id in worlds[last].db.devices && worlds[last].db.devices[id] == worlds[first].db.devices[id]
    decreases last
  {
    if first < last {
      RowStays(steps, worlds, id, first, last - 1);
      assert !CommitsAbout(steps, worlds, last - 1, id);
      OnlyCommitWrites(worlds[last - 1], steps[last - 1]);
    }
  }

  /** No other commit about `id` falls between the SeeRow of the transaction that step `m` commits and `m`. */
  ghost predicate Undisturbed(steps: seq<Step>, worlds: seq<World>, id: Id, m: nat)
    requires m < |steps| < |worlds|
  {
    steps[m].Commit? ==>
      forall s, n :: 0 <= s < n < m && steps[s] == SeeRow(steps[m].k) ==> !CommitsAbout(steps, worlds, n, id)
  }

  /** Such a commit reports nothing that moved since its snapshot. */
  lemma UndisturbedIsUnmoved(steps: seq<Step>, worlds: seq<World>, id: Id, m: nat)
    requires IsInterleaving(steps, worlds) && m < |steps| && Undisturbed(steps, worlds, id, m)
    ensures CommitUnmoved(worlds[m], steps[m], id)
  {
    if CommitsAbout(steps, worlds, m, id) && id in worlds[m].db.devices {
      RunInv(steps, worlds, m);
      var k := steps[m].k;
      assert TxOk(worlds[m].db, worlds[m].nextTx, k, worlds[m].txs[k]);
      var s := SnapshotWasSeen(steps, worlds, m, k, id);
      RowStays(steps, worlds, id, s, m);
    }
  }

  /** A commit about `id` overwrites its type with the empty one. */
  ghost predicate BlanksType(w: World, s: Step, id: Id) {
    && s.Commit? && s.k in w.txs && w.txs[s.k].id == id && id in w.db.devices
    && w.txs[s.k].u.device.kind == "" != w.db.devices[id].kind
  }

  lemma UnmovedTellsIff(w: World, s: Step, id: Id)
    requires CommitUnmoved(w, s, id)
    ensures CommitTells(w, s, id) <==> !BlanksType(w, s, id)
  {
  }

  /** So the timeline of a device whose upserts do not overlap between read and commit, whatever else is going
      on, replays in every state exactly when none of them blanks its type. */
  lemma UndisturbedTimelinesIff(steps: seq<Step>, worlds: seq<World>, id: Id, i: nat, j: nat)
    requires IsInterleaving(steps, worlds) && i < j <= |steps|
    requires id !in worlds[i].db.devices && id in worlds[i + 1].db.devices
    requires forall m :: i < m < j ==> Undisturbed(steps, worlds, id, m)
    ensures AlwaysExplained(worlds, RowScalars(worlds[i + 1].db.devices[id]), id, i + 1, j)
            <==> forall m :: i < m < j ==> !BlanksType(worlds[m], steps[m], id)
  {
    InterleavedTimelinesIff(steps, worlds, id, i, j);
    forall m | i < m < j
      ensures CommitTells(worlds[m], steps[m], id) <==> !BlanksType(worlds[m], steps[m], id)
    {
      UndisturbedIsUnmoved(steps, worlds, id, m);
      UnmovedTellsIff(worlds[m], steps[m], id);
    }
  }
}
