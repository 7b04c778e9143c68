/**
 Reading a device back: the detail queries on the stored rows, and what they show after an upsert.
 */
module DeviceDetail {
  import opened Wrappers
  import opened Inventory
  import opened Sorting
  import Timeline

  datatype OsView = OsView(family: string, name: string, version: string, build: string, arch: string)
  datatype HardwareView = HardwareView(vendor: string, model: string, serial: string, cpu: string, cpuCores: int,
      ramBytes: int)
  /** The MAC column's text names its six octets; '' stands for none. */
  datatype InterfaceView = InterfaceView(name: string, mac: Option<Mac>, ip: string, speedMbps: int)
  datatype SoftwareView = SoftwareView(name: string, version: string, vendor: string)
  datatype UserView = UserView(username: string, fullName: string, lastLogon: Option<int>, isLocal: bool)

  datatype Detail = Detail(
    id: Id, kind: string, hostname: string, primaryIp: string, serial: string, osName: string, source: string,
    firstSeen: int, lastSeen: int, os: Option<OsView>, hardware: Option<HardwareView>,
    interfaces: seq<InterfaceView>, software: seq<SoftwareView>, users: seq<UserView>)

  // ---- The queries ----

  /** COALESCE(o, 0). */
  function Number(o: Option<int>): int {
    if o.Some? then o.value else 0
  }

  function ReadOs(r: OsRow): OsView {
    OsView(Text(r.family), Text(r.name), Text(r.version), Text(r.build), Text(r.arch))
  }

  function ReadHardware(r: HardwareRow): HardwareView {
    HardwareView(Text(r.vendor), Text(r.model), Text(r.serial), Text(r.cpu), Number(r.cpuCores), Number(r.ramBytes))
  }

  function ReadInterface(r: InterfaceRow): InterfaceView {
    InterfaceView(Text(r.name), r.mac, Text(r.ip), Number(r.speedMbps))
  }

  function ReadSoftware(r: SoftwareRow): SoftwareView {
    SoftwareView(r.name, Text(r.version), Text(r.vendor))
  }

  function ReadUser(r: UserRow): UserView {
    UserView(r.username, Text(r.fullName), r.lastLogon, r.isLocal)
  }

  /** `order` lists the indices below `n`, each once. */
  ghost predicate IsPermutation(order: seq<nat>, n: nat) {
    && |order| == n
    && (forall i :: 0 <= i < n ==> order[i] < n)
    && (forall i, j :: 0 <= i < j < n ==> order[i] != order[j])
  }

  /** ORDER BY name. */
  ghost predicate ByName(c: Collation, rows: seq<InterfaceRow>, order: seq<nat>)
    requires IsPermutation(order, |rows|)
  {
    forall i, j :: 0 <= i < j < |rows| ==> !NullsLast(c, rows[order[j]].name, rows[order[i]].name)
  }

  /** ORDER BY lower(name). */
  ghost predicate ByLowerName(c: Collation, rows: seq<SoftwareRow>, order: seq<nat>)
    requires IsPermutation(order, |rows|)
  {
    forall i, j :: 0 <= i < j < |rows| ==> !c.before(c.lower(rows[order[j]].name), c.lower(rows[order[i]].name))
  }

  /** ORDER BY username. */
  ghost predicate ByUsername(c: Collation, rows: seq<UserRow>, order: seq<nat>)
    requires IsPermutation(order, |rows|)
  {
    forall i, j :: 0 <= i < j < |rows| ==> !c.before(rows[order[j]].username, rows[order[i]].username)
  }

  function ShownOs(t: Tables, id: Id): Option<OsView> {
    if id in t.os then Some(ReadOs(t.os[id])) else None
  }

  function ShownHardware(t: Tables, id: Id): Option<HardwareView> {
    if id in t.hardware then Some(ReadHardware(t.hardware[id])) else None
  }

  ghost predicate ShowsScalars(t: Tables, id: Id, d: Detail) {
    && id in t.devices
    && var r := t.devices[id];
    && d.id == id && d.kind == r.kind
    && d.hostname == Text(r.hostname) && d.primaryIp == Text(r.primaryIp) && d.serial == Text(r.serial)
    && d.source == Text(r.source) && d.firstSeen == r.firstSeen && d.lastSeen == r.lastSeen
  }

  /** The OS and hardware records are optional; the list column repeats the OS name. */
  ghost predicate ShowsRecords(t: Tables, id: Id, d: Detail) {
    && d.os == ShownOs(t, id)
    && d.hardware == ShownHardware(t, id)
    && d.osName == if d.os.Some? then d.os.value.name else ""
  }

  /** Each list holds the device's rows in the order of its query; equal keys may come in any order. */
  ghost predicate ShowsInterfaces(c: Collation, rows: seq<InterfaceRow>, shown: seq<InterfaceView>) {
    exists order: seq<nat> ::
      && IsPermutation(order, |rows|) && ByName(c, rows, order) && |shown| == |rows|
      && forall i :: 0 <= i < |rows| ==> shown[i] == ReadInterface(rows[order[i]])
  }

  ghost predicate ShowsSoftware(c: Collation, rows: seq<SoftwareRow>, shown: seq<SoftwareView>) {
    exists order: seq<nat> ::
      && IsPermutation(order, |rows|) && ByLowerName(c, rows, order) && |shown| == |rows|
      && forall i :: 0 <= i < |rows| ==> shown[i] == ReadSoftware(rows[order[i]])
  }

  ghost predicate ShowsUsers(c: Collation, rows: seq<UserRow>, shown: seq<UserView>) {
    exists order: seq<nat> ::
      && IsPermutation(order, |rows|) && ByUsername(c, rows, order) && |shown| == |rows|
      && forall i :: 0 <= i < |rows| ==> shown[i] == ReadUser(rows[order[i]])
  }

  ghost predicate ShowsChildren(c: Collation, t: Tables, id: Id, d: Detail) {
    && ShowsInterfaces(c, RowsOf(t.interfaces, id), d.interfaces)
    && ShowsSoftware(c, RowsOf(t.software, id), d.software)
    && ShowsUsers(c, RowsOf(t.users, id), d.users)
  }

  /** `page` is a possible answer of GetDevice. */
  ghost predicate Shows(c: Collation, t: Tables, id: Id, page: Option<Detail>) {
    if id !in t.devices then page == None
    else
      && page.Some?
      && ShowsScalars(t, id, page.value)
      && ShowsRecords(t, id, page.value)
      && ShowsChildren(c, t, id, page.value)
  }

  /** A text column as it is shown: NULL as ''. */
  predicate ShowsText(column: Option<string>, shown: string) {
    column == Some(shown) || (column == None && shown == "")
  }

  /** There is a page exactly for a stored device, and it shows the device's own columns. */
  lemma PageColumns(c: Collation, t: Tables, id: Id, page: Option<Detail>)
    requires Shows(c, t, id, page)
    ensures page.Some? <==> id in t.devices
    ensures page.Some? ==>
              var d, r := page.value, t.devices[id];
              && d.id == id && d.kind == r.kind && d.firstSeen == r.firstSeen && d.lastSeen == r.lastSeen
              && ShowsText(r.hostname, d.hostname) && ShowsText(r.primaryIp, d.primaryIp)
              && ShowsText(r.serial, d.serial) && ShowsText(r.source, d.source)
  {
  }

  // ---- What a report says, without any table ----

  function ReportedInterface(i: Interface): InterfaceView
    requires InterfaceFits(i)
  {
    InterfaceView(i.name, MacValue(i.mac), i.ip, i.speedMbps)
  }

  function ReportedSoftware(s: Software): SoftwareView {
    SoftwareView(s.name, s.version, s.vendor)
  }

  function ReportedUser(u: UserAccount): UserView {
    UserView(u.username, u.fullName, u.lastLogon, u.isLocal)
  }

  function ReportedOs(o: OsInfo): OsView {
    OsView(o.family, o.name, o.version, o.build, o.arch)
  }

  function ReportedHardware(h: Hardware): HardwareView {
    HardwareView(h.vendor, h.model, h.serial, h.cpu, h.cpuCores, h.ramBytes)
  }

  // ---- Round trips ----

  /** The reported interfaces, each once, by name with the unnamed last. */
  ghost predicate ListsInterfaces(c: Collation, s: seq<Interface>, shown: seq<InterfaceView>)
    requires forall i :: 0 <= i < |s| ==> InterfaceFits(s[i])
  {
    && (exists order: seq<nat> ::
          && IsPermutation(order, |s|) && |shown| == |s|
          && forall i :: 0 <= i < |s| ==> shown[i] == ReportedInterface(s[order[i]]))
    && forall i, j :: 0 <= i < j < |shown| ==> !NullsLast(c, NullStr(shown[j].name), NullStr(shown[i].name))
  }

  /** The reported software, each once, by lower-cased name. */
  ghost predicate ListsSoftware(c: Collation, s: seq<Software>, shown: seq<SoftwareView>) {
    && (exists order: seq<nat> ::
          && IsPermutation(order, |s|) && |shown| == |s|
          && forall i :: 0 <= i < |s| ==> shown[i] == ReportedSoftware(s[order[i]]))
    && forall i, j :: 0 <= i < j < |shown| ==> !c.before(c.lower(shown[j].name), c.lower(shown[i].name))
  }

  /** The reported users, each once, by name. */
  ghost predicate ListsUsers(c: Collation, s: seq<UserAccount>, shown: seq<UserView>) {
    && (exists order: seq<nat> ::
          && IsPermutation(order, |s|) && |shown| == |s|
          && forall i :: 0 <= i < |s| ==> shown[i] == ReportedUser(s[order[i]]))
    && forall i, j :: 0 <= i < j < |shown| ==> !c.before(shown[j].username, shown[i].username)
  }

  lemma InterfacesAreShown(c: Collation, s: seq<Interface>, shown: seq<InterfaceView>)
    requires forall i :: 0 <= i < |s| ==> InterfaceFits(s[i])
    requires ShowsInterfaces(c, InterfaceRows(s), shown)
    ensures ListsInterfaces(c, s, shown)
  {
    var rows := InterfaceRows(s);
    var order: seq<nat> :|
      && IsPermutation(order, |rows|) && ByName(c, rows, order) && |shown| == |rows|
      && forall i :: 0 <= i < |rows| ==> shown[i] == ReadInterface(rows[order[i]]);
    forall i | 0 <= i < |s|
      ensures shown[i] == ReportedInterface(s[order[i]]) && NullStr(shown[i].name) == rows[order[i]].name
    {
      assert rows[order[i]] == ToInterfaceRow(s[order[i]]);
    }
  }

  lemma SoftwareIsShown(c: Collation, s: seq<Software>, shown: seq<SoftwareView>)
    requires ShowsSoftware(c, SoftwareRows(s), shown)
    ensures ListsSoftware(c, s, shown)
  {
    var rows := SoftwareRows(s);
    var order: seq<nat> :|
      && IsPermutation(order, |rows|) && ByLowerName(c, rows, order) && |shown| == |rows|
      && forall i :: 0 <= i < |rows| ==> shown[i] == ReadSoftware(rows[order[i]]);
    forall i | 0 <= i < |s|
      ensures shown[i] == ReportedSoftware(s[order[i]]) && shown[i].name == rows[order[i]].name
    {
      assert rows[order[i]] == ToSoftwareRow(s[order[i]]);
    }
  }

  lemma UsersAreShown(c: Collation, s: seq<UserAccount>, shown: seq<UserView>)
    requires ShowsUsers(c, UserRows(s), shown)
    ensures ListsUsers(c, s, shown)
  {
    var rows := UserRows(s);
    var order: seq<nat> :|
      && IsPermutation(order, |rows|) && ByUsername(c, rows, order) && |shown| == |rows|
      && forall i :: 0 <= i < |rows| ==> shown[i] == ReadUser(rows[order[i]]);
    forall i | 0 <= i < |s|
      ensures shown[i] == ReportedUser(s[order[i]]) && shown[i].username == rows[order[i]].username
    {
      assert rows[order[i]] == ToUserRow(s[order[i]]);
    }
  }

  lemma StoredChildren(t: Tables, u: Upsert, target: Option<Id>, after: Tables)
    requires Lands(t, u, target, after) && u.collected
    ensures var id := if target.Some? then target.value else u.newId;
            && ChildrenFit(u.device)
            && RowsOf(after.interfaces, id) == InterfaceRows(u.device.interfaces)
            && RowsOf(after.software, id) == SoftwareRows(u.device.software)
            && RowsOf(after.users, id) == UserRows(u.device.users)
  {
  }

  lemma CollectedRowsAreShown(c: Collation, t: Tables, u: Upsert, target: Option<Id>, after: Tables, page: Detail)
    requires Lands(t, u, target, after) && u.collected
    requires ShowsChildren(c, after, if target.Some? then target.value else u.newId, page)
    ensures ChildrenFit(u.device)
    ensures ListsInterfaces(c, u.device.interfaces, page.interfaces)
    ensures ListsSoftware(c, u.device.software, page.software)
    ensures ListsUsers(c, u.device.users, page.users)
  {
    StoredChildren(t, u, target, after);
    InterfacesAreShown(c, u.device.interfaces, page.interfaces);
    SoftwareIsShown(c, u.device.software, page.software);
    UsersAreShown(c, u.device.users, page.users);
  }

  /** After a collected upsert the page lists exactly the reported children: interfaces by name with the
      unnamed last, software by lower-cased name, users by name. */
  lemma CollectedChildrenAreShown(c: Collation, t: Tables, u: Upsert, target: Option<Id>, after: Tables, page: Detail)
    requires Lands(t, u, target, after) && u.collected
    requires Shows(c, after, if target.Some? then target.value else u.newId, Some(page))
    ensures ChildrenFit(u.device)
    ensures ListsInterfaces(c, u.device.interfaces, page.interfaces)
    ensures ListsSoftware(c, u.device.software, page.software)
    ensures ListsUsers(c, u.device.users, page.users)
  {
    CollectedRowsAreShown(c, t, u, target, after, page);
  }

  /** It shows the reported OS and hardware; those not reported, or not collected, are shown as before. */
  lemma RecordsAreShown(t: Tables, u: Upsert, target: Option<Id>, after: Tables, page: Detail)
    requires Lands(t, u, target, after)
    requires ShowsRecords(after, if target.Some? then target.value else u.newId, page)
    ensures var id := if target.Some? then target.value else u.newId;
            && page.os == (if u.collected && u.device.os.Some? then Some(ReportedOs(u.device.os.value))
                           else ShownOs(t, id))
            && page.hardware == (if u.collected && u.device.hardware.Some?
                                 then Some(ReportedHardware(u.device.hardware.value))
                                 else ShownHardware(t, id))
  {
  }

  /** The lists of every device stay when nothing was collected, those of the others always. */
  lemma ListsStay(c: Collation, t: Tables, u: Upsert, target: Option<Id>, after: Tables, other: Id, page: Detail)
    requires Lands(t, u, target, after)
    requires !u.collected || other != if target.Some? then target.value else u.newId
    ensures ShowsChildren(c, t, other, page) <==> ShowsChildren(c, after, other, page)
  {
    assert RowsOf(after.interfaces, other) == RowsOf(t.interfaces, other);
    assert RowsOf(after.software, other) == RowsOf(t.software, other);
    assert RowsOf(after.users, other) == RowsOf(t.users, other);
  }

  /** What a page is made of besides its lists. */
  ghost predicate SameRecords(t: Tables, after: Tables, id: Id) {
    && (id in t.devices <==> id in after.devices)
    && (id in t.devices ==> after.devices[id] == t.devices[id])
    && ShownOs(after, id) == ShownOs(t, id)
    && ShownHardware(after, id) == ShownHardware(t, id)
  }

  lemma OtherDevicesStay(t: Tables, u: Upsert, target: Option<Id>, after: Tables, other: Id)
    requires Lands(t, u, target, after) && other != if target.Some? then target.value else u.newId
    ensures other in t.devices <==> other in after.devices
    ensures other in t.devices ==> after.devices[other] == t.devices[other]
  {
  }

  lemma OtherRecordsStay(t: Tables, u: Upsert, target: Option<Id>, after: Tables, other: Id)
    requires Lands(t, u, target, after) && other != if target.Some? then target.value else u.newId
    ensures SameRecords(t, after, other)
  {
    OtherDevicesStay(t, u, target, after, other);
    Timeline.ShallowPassKeepsChildren(t, u, target, after, other);
  }

  lemma SamePage(c: Collation, t: Tables, after: Tables, id: Id, page: Detail)
    requires SameRecords(t, after, id) && (ShowsChildren(c, t, id, page) <==> ShowsChildren(c, after, id, page))
    ensures Shows(c, t, id, Some(page)) <==> Shows(c, after, id, Some(page))
  {
    assert ShowsScalars(t, id, page) <==> ShowsScalars(after, id, page);
    assert ShowsRecords(t, id, page) <==> ShowsRecords(after, id, page);
  }

  /** No upsert touches the page of another device. */
  lemma OtherPagesStay(c: Collation, t: Tables, u: Upsert, target: Option<Id>, after: Tables, other: Id, page: Detail)
    requires Lands(t, u, target, after) && other != if target.Some? then target.value else u.newId
    ensures Shows(c, t, other, Some(page)) <==> Shows(c, after, other, Some(page))
  {
    ListsStay(c, t, u, target, after, other, page);
    OtherRecordsStay(t, u, target, after, other);
    SamePage(c, t, after, other, page);
  }

  // ---- Over runs ----

  /** One step of a run that rewrites no children of `id`: nothing happened, nothing was collected, or it
      was about another device. */
  ghost predicate Spares(t: Tables, after: Tables, id: Id) {
    after == t
    || exists u: Upsert, target: Option<Id> ::
         Commits(t, u, target, after) && (!u.collected || id != if target.Some? then target.value else u.newId)
  }

  /** The child and side rows of a device. */
  ghost predicate SameRows(t: Tables, after: Tables, id: Id) {
    && RowsOf(after.interfaces, id) == RowsOf(t.interfaces, id)
    && RowsOf(after.software, id) == RowsOf(t.software, id)
    && RowsOf(after.users, id) == RowsOf(t.users, id)
    && ShownOs(after, id) == ShownOs(t, id)
    && ShownHardware(after, id) == ShownHardware(t, id)
  }

  /** The same rows give the same lists and records. */
  lemma SameRowsSamePage(c: Collation, t: Tables, after: Tables, id: Id, page: Detail)
    requires SameRows(t, after, id) && ShowsChildren(c, after, id, page) && ShowsRecords(after, id, page)
    ensures ShowsChildren(c, t, id, page) && ShowsRecords(t, id, page)
  {
  }

  lemma SparingCommit(t: Tables, u: Upsert, target: Option<Id>, after: Tables, id: Id)
    requires Lands(t, u, target, after) && (!u.collected || id != if target.Some? then target.value else u.newId)
    ensures SameRows(t, after, id)
  {
    Timeline.ShallowPassKeepsChildren(t, u, target, after, id);
  }

  lemma SparedRowsStay(t: Tables, after: Tables, id: Id)
    requires Spares(t, after, id)
    ensures SameRows(t, after, id)
  {
    if after != t {
      var u: Upsert, target: Option<Id> :|
        Commits(t, u, target, after) && (!u.collected || id != if target.Some? then target.value else u.newId);
      SparingCommit(t, u, target, after, id);
    }
  }

  lemma {:induction false} SameRowsThroughout(history: seq<Tables>, id: Id, i: nat, j: nat)
    requires i <= j < |history| && forall m :: i <= m < j ==> SameRows(history[m], history[m + 1], id)
    ensures SameRows(history[i], history[j], id)
    decreases j
  {
    if i < j {
      SameRowsThroughout(history, id, i, j - 1);
    }
  }

  /** Every step from state `i` to state `j` spares the device's rows. */
  ghost predicate Spared(history: seq<Tables>, id: Id, i: nat, j: nat)
    requires j < |history|
  {
    forall m :: i <= m < j ==> Spares(history[m], history[m + 1], id)
  }

  lemma SparedRunKeepsRows(history: seq<Tables>, id: Id, i: nat, j: nat)
    requires i <= j < |history| && Spared(history, id, i, j)
    ensures SameRows(history[i], history[j], id)
  {
    forall m | i <= m < j
      ensures SameRows(history[m], history[m + 1], id)
    {
      SparedRowsStay(history[m], history[m + 1], id);
    }
    SameRowsThroughout(history, id, i, j);
  }

  /** A page shown after steps that spare the device could have been shown before them, its scalars apart. */
  lemma ShownBefore(c: Collation, history: seq<Tables>, id: Id, i: nat, j: nat, page: Detail)
    requires i <= j < |history| && Spared(history, id, i, j)
    requires Shows(c, history[j], id, Some(page))
    ensures ShowsChildren(c, history[i], id, page) && ShowsRecords(history[i], id, page)
  {
    SparedRunKeepsRows(history, id, i, j);
    SameRowsSamePage(c, history[i], history[j], id, page);
  }

  lemma CollectedPage(c: Collation, t: Tables, u: Upsert, target: Option<Id>, after: Tables, page: Detail)
    requires Lands(t, u, target, after) && u.collected
    requires var id := if target.Some? then target.value else u.newId;
             ShowsChildren(c, after, id, page) && ShowsRecords(after, id, page)
    ensures ChildrenFit(u.device)
    ensures ListsInterfaces(c, u.device.interfaces, page.interfaces)
    ensures ListsSoftware(c, u.device.software, page.software)
    ensures ListsUsers(c, u.device.users, page.users)
    ensures u.device.os.Some? ==>
              page.os == Some(ReportedOs(u.device.os.value)) && page.osName == u.device.os.value.name
    ensures u.device.hardware.Some? ==> page.hardware == Some(ReportedHardware(u.device.hardware.value))
  {
    CollectedRowsAreShown(c, t, u, target, after, page);
    RecordsAreShown(t, u, target, after, page);
  }

  /**
   The page of a device lists the children of its last collected report, each once and in the order of the
   page, and that report's OS and hardware, however many passes that collected nothing, and upserts of other
   devices, came since.
   */
  lemma LastCollectedReportIsShown(
      c: Collation, history: seq<Tables>, u: Upsert, target: Option<Id>, i: nat, j: nat, page: Detail)
    requires i < j < |history| && Commits(history[i], u, target, history[i + 1]) && u.collected
    requires var id := if target.Some? then target.value else u.newId;
             && Spared(history, id, i + 1, j)
             && Shows(c, history[j], id, Some(page))
    ensures ChildrenFit(u.device)
    ensures ListsInterfaces(c, u.device.interfaces, page.interfaces)
    ensures ListsSoftware(c, u.device.software, page.software)
    ensures ListsUsers(c, u.device.users, page.users)
    ensures u.device.os.Some? ==>
              page.os == Some(ReportedOs(u.device.os.value)) && page.osName == u.device.os.value.name
    ensures u.device.hardware.Some? ==> page.hardware == Some(ReportedHardware(u.device.hardware.value))
  {
    ShownBefore(c, history, if target.Some? then target.value else u.newId, i + 1, j, page);
    CollectedPage(c, history[i], u, target, history[i + 1], page);
  }

  // ---- Scalars over runs ----

  function ShownField(d: Detail, f: Field): string {
    match f
    case Hostname => d.hostname
    case PrimaryIp => d.primaryIp
    case Serial => d.serial
    case DeviceType => d.kind
    case OsName => d.osName
    case OsVersion => if d.os.Some? then d.os.value.version else ""
  }

  const SCALARS := {Hostname, PrimaryIp, Serial, DeviceType}

  /** What a stored device's page shows. */
  ghost predicate StoresField(t: Tables, id: Id, f: Field, v: string) {
    id in t.devices && Timeline.Get(ScalarsOf(t, id), f) == v
  }

  /** A report brings a value: a non-blank scalar, or a known type. */
  ghost predicate Brings(u: Upsert, f: Field) {
    Timeline.Incoming(u.device, f) != ""
  }

  /** A report brings no value, and does not blank the type either. */
  ghost predicate Omits(u: Upsert, f: Field) {
    !Brings(u, f) && (f == DeviceType ==> u.device.kind != "")
  }

  /** The field is left alone: nothing happened, or the report was about another device, or it omits it. */
  ghost predicate Quiet(t: Tables, after: Tables, id: Id, f: Field) {
    after == t
    || exists u: Upsert, target: Option<Id> ::
         && Commits(t, u, target, after)
         && (id != (if target.Some? then target.value else u.newId)
             || (target == Some(id) && Omits(u, f)))
  }

  lemma BroughtIsStored(t: Tables, u: Upsert, target: Option<Id>, after: Tables, f: Field)
    requires Lands(t, u, target, after) && Brings(u, f) && f in SCALARS
    ensures StoresField(after, if target.Some? then target.value else u.newId, f, Timeline.Incoming(u.device, f))
  {
  }

  lemma QuietCommit(t: Tables, u: Upsert, target: Option<Id>, after: Tables, id: Id, f: Field, v: string)
    requires Lands(t, u, target, after) && StoresField(t, id, f, v) && f in SCALARS
    requires id != (if target.Some? then target.value else u.newId)
             || (target == Some(id) && Omits(u, f))
    ensures StoresField(after, id, f, v)
  {
  }

  lemma QuietStep(t: Tables, after: Tables, id: Id, f: Field, v: string)
    requires Quiet(t, after, id, f) && StoresField(t, id, f, v) && f in SCALARS
    ensures StoresField(after, id, f, v)
  {
    if after != t {
      var u: Upsert, target: Option<Id> :|
        && Commits(t, u, target, after)
        && (id != (if target.Some? then target.value else u.newId)
            || (target == Some(id) && Omits(u, f)));
      QuietCommit(t, u, target, after, id, f, v);
    }
  }

  /** A stored value survives the step. */
  ghost predicate Keeps(t: Tables, after: Tables, id: Id, f: Field, v: string) {
    StoresField(t, id, f, v) ==> StoresField(after, id, f, v)
  }

  lemma {:induction false} KeptThroughout(history: seq<Tables>, id: Id, f: Field, v: string, i: nat, j: nat)
    requires i <= j < |history| && StoresField(history[i], id, f, v)
    requires forall m :: i <= m < j ==> Keeps(history[m], history[m + 1], id, f, v)
    ensures StoresField(history[j], id, f, v)
    decreases j
  {
    if i < j {
      KeptThroughout(history, id, f, v, i, j - 1);
      assert Keeps(history[j - 1], history[j], id, f, v);
    }
  }

  lemma QuietRun(history: seq<Tables>, id: Id, f: Field, v: string, i: nat, j: nat)
    requires i <= j < |history| && StoresField(history[i], id, f, v) && f in SCALARS
    requires forall m :: i <= m < j ==> Quiet(history[m], history[m + 1], id, f)
    ensures StoresField(history[j], id, f, v)
  {
    forall m | i <= m < j
      ensures Keeps(history[m], history[m + 1], id, f, v)
    {
      if StoresField(history[m], id, f, v) {
        QuietStep(history[m], history[m + 1], id, f, v);
      }
    }
    KeptThroughout(history, id, f, v, i, j);
  }

  lemma StoredIsShown(t: Tables, id: Id, f: Field, v: string, page: Detail)
    requires StoresField(t, id, f, v) && ShowsScalars(t, id, page) && f in SCALARS
    ensures ShownField(page, f) == v
  {
  }

  /** The page shows the last value reported for its hostname, address, serial and type, however many
      reports without one came since. */
  lemma LastReportedScalarIsShown(
      history: seq<Tables>, u: Upsert, target: Option<Id>, f: Field, i: nat, j: nat, page: Detail)
    requires i < j < |history| && Commits(history[i], u, target, history[i + 1]) && Brings(u, f) && f in SCALARS
    requires var id := if target.Some? then target.value else u.newId;
             && (forall m :: i < m < j ==> Quiet(history[m], history[m + 1], id, f))
             && ShowsScalars(history[j], id, page)
    ensures ShownField(page, f) == Timeline.Incoming(u.device, f)
  {
    var id := if target.Some? then target.value else u.newId;
    BroughtIsStored(history[i], u, target, history[i + 1], f);
    QuietRun(history, id, f, Timeline.Incoming(u.device, f), i + 1, j);
    StoredIsShown(history[j], id, f, Timeline.Incoming(u.device, f), page);
  }
}
