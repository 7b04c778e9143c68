/**
 The inventory data model: what collectors hand in, the rows PostgreSQL keeps, and the meaning of
 each SQL statement of the upsert as a function on rows and tables.
 */
module Inventory {
  import opened Wrappers

  /** A device's UUID. */
  type Id = nat
  type Octet = x: nat | x < 256
  /** A value of the MACADDR column. */
  type Mac = octets: seq<Octet> | |octets| == 6 witness [0, 0, 0, 0, 0, 0]

  const UNKNOWN := "unknown"

  // ---- Incoming devices (internal/model/model.go) ----

  /** A reported MAC string, by what net.ParseMAC and the MACADDR column make of it.  Go also parses
      8- and 20-octet addresses; the column also reads spellings Go does not. */
  datatype MacText =
    | NoMac
    | GoMac(octets: seq<Octet>)
    | ColumnOnlyMac(mac: Mac)
    | BadMac

  /** An IP address is its canonical text; "" stands for the invalid address. */
  datatype Interface = Interface(name: string, mac: MacText, ip: string, speedMbps: int, vlan: int)
  datatype OsInfo = OsInfo(family: string, name: string, version: string, build: string, arch: string)
  datatype Hardware = Hardware(vendor: string, model: string, serial: string, cpu: string, cpuCores: int, ramBytes: int)
  /** `installed` is the install date already parsed to a day number, None when empty or unparseable. */
  datatype Software = Software(name: string, version: string, vendor: string, installed: Option<int>)
  datatype UserAccount = UserAccount(username: string, fullName: string, lastLogon: Option<int>, isLocal: bool)

  datatype Device = Device(
    kind: string, hostname: string, primaryIp: string, serial: string, assetTag: string, adGuid: string, source: string,
    interfaces: seq<Interface>, os: Option<OsInfo>, hardware: Option<Hardware>,
    software: seq<Software>, users: seq<UserAccount>)

  // ---- Stored rows (internal/store/migrations/0001_init.sql) ----

  datatype DeviceRow = DeviceRow(
    kind: string, hostname: Option<string>, primaryIp: Option<string>, serial: Option<string>,
    assetTag: Option<string>, adGuid: Option<string>, source: Option<string>,
    firstSeen: int, lastSeen: int, updatedAt: int)

  datatype InterfaceRow = InterfaceRow(name: Option<string>, mac: Option<Mac>, ip: Option<string>,
      speedMbps: Option<int>, vlan: Option<int>)
  datatype OsRow = OsRow(family: Option<string>, name: Option<string>, version: Option<string>,
      build: Option<string>, arch: Option<string>)
  datatype HardwareRow = HardwareRow(
    vendor: Option<string>, model: Option<string>, serial: Option<string>, cpu: Option<string>,
        cpuCores: Option<int>, ramBytes: Option<int>)
  datatype SoftwareRow = SoftwareRow(name: string, version: Option<string>, vendor: Option<string>,
      installed: Option<int>)
  datatype UserRow = UserRow(username: string, fullName: Option<string>, lastLogon: Option<int>, isLocal: bool)

  datatype Field = Hostname | PrimaryIp | Serial | DeviceType | OsName | OsVersion
  datatype Change = Change(field: Field, before: string, after: string)
  datatype ChangeRow = ChangeRow(device: Id, run: Option<string>, change: Change)

  /** The database.  A child table is kept per device; a device without rows has no entry. */
  datatype Tables = Tables(
    devices: map<Id, DeviceRow>,
    interfaces: map<Id, seq<InterfaceRow>>,
    software: map<Id, seq<SoftwareRow>>,
    users: map<Id, seq<UserRow>>,
    os: map<Id, OsRow>,
    hardware: map<Id, HardwareRow>,
    log: seq<ChangeRow>)

  const EMPTY_TABLES := Tables(map[], map[], map[], map[], map[], map[], [])

  // ---- Column values (internal/store/null.go) ----

  function NullStr(s: string): Option<string> {
    if s == "" then None else Some(s)
  }

  function NullInt(i: int): Option<int> {
    if i == 0 then None else Some(i)
  }

  /** COALESCE(o, ''). */
  function Text(o: Option<string>): string {
    if o.Some? then o.value else ""
  }

  /** COALESCE(o, stored). */
  function Coalesce(o: Option<string>, stored: Option<string>): Option<string> {
    if o.Some? then o else stored
  }

  /** INET takes every address text except one with a zone. */
  predicate InetFits(ip: string) {
    '%' !in ip
  }

  predicate Int4Fits(i: int) {
    -0x8000_0000 <= i < 0x8000_0000
  }

  predicate MacFits(m: MacText) {
    match m
    case NoMac => true
    case GoMac(octets) => |octets| == 6
    case ColumnOnlyMac(_) => true
    case BadMac => false
  }

  function MacValue(m: MacText): Option<Mac>
    requires MacFits(m)
  {
    match m
    case NoMac => None
    case GoMac(octets) => Some(octets)
    case ColumnOnlyMac(mac) => Some(mac)
    case BadMac => None
  }

  predicate InterfaceFits(i: Interface) {
    MacFits(i.mac) && InetFits(i.ip) && Int4Fits(i.vlan)
  }

  predicate HardwareFits(h: Hardware) {
    Int4Fits(h.cpuCores)
  }

  /** Every column value of the child rows is accepted. */
  predicate ChildrenFit(d: Device) {
    && (forall i :: 0 <= i < |d.interfaces| ==> InterfaceFits(d.interfaces[i]))
    && (d.hardware.Some? ==> HardwareFits(d.hardware.value))
  }

  function ToInterfaceRow(i: Interface): InterfaceRow
    requires InterfaceFits(i)
  {
    InterfaceRow(NullStr(i.name), MacValue(i.mac), NullStr(i.ip), NullInt(i.speedMbps), NullInt(i.vlan))
  }

  function ToOsRow(o: OsInfo): OsRow {
    OsRow(NullStr(o.family), NullStr(o.name), NullStr(o.version), NullStr(o.build), NullStr(o.arch))
  }

  function ToHardwareRow(h: Hardware): HardwareRow {
    HardwareRow(NullStr(h.vendor), NullStr(h.model), NullStr(h.serial), NullStr(h.cpu), NullInt(h.cpuCores),
        NullInt(h.ramBytes))
  }

  function ToSoftwareRow(s: Software): SoftwareRow {
    SoftwareRow(s.name, NullStr(s.version), NullStr(s.vendor), s.installed)
  }

  function ToUserRow(u: UserAccount): UserRow {
    UserRow(u.username, NullStr(u.fullName), u.lastLogon, u.isLocal)
  }

  function InterfaceRows(s: seq<Interface>): seq<InterfaceRow>
    requires forall i :: 0 <= i < |s| ==> InterfaceFits(s[i])
  {
    seq(|s|, i requires 0 <= i < |s| => ToInterfaceRow(s[i]))
  }

  function SoftwareRows(s: seq<Software>): seq<SoftwareRow> {
    seq(|s|, i requires 0 <= i < |s| => ToSoftwareRow(s[i]))
  }

  function UserRows(s: seq<UserAccount>): seq<UserRow> {
    seq(|s|, i requires 0 <= i < |s| => ToUserRow(s[i]))
  }

  // ---- Child tables ----

  function RowsOf<R>(table: map<Id, seq<R>>, id: Id): seq<R> {
    if id in table then table[id] else []
  }

  /** The table once the rows of `id` are exactly `rows`. */
  function PutRows<R>(table: map<Id, seq<R>>, id: Id, rows: seq<R>): map<Id, seq<R>> {
    if rows == [] then table - {id} else table[id := rows]
  }

  // ---- Identity (macsOf, isLocallyAdministered) ----

  /** The 0x02 bit of the first octet, or a MAC that Go cannot parse. */
  predicate IsLocallyAdministered(m: MacText) {
    !m.GoMac? || m.octets == [] || (m.octets[0] / 2) % 2 == 1
  }

  predicate IsIdentityMac(m: MacText) {
    !m.NoMac? && !IsLocallyAdministered(m)
  }

  /** The octets of the MACs that identify a device, in interface order. */
  function MacsOf(interfaces: seq<Interface>): (macs: seq<seq<Octet>>)
    ensures forall m :: m in macs <==>
              exists i :: 0 <= i < |interfaces| && IsIdentityMac(interfaces[i].mac) && interfaces[i].mac.octets == m
  {
    if interfaces == [] then []
    else
      var rest := MacsOf(interfaces[..|interfaces| - 1]);
      var last := interfaces[|interfaces| - 1].mac;
      if IsIdentityMac(last) then rest + [last.octets] else rest
  }

  /** PostgreSQL's lower() on the ASCII letters. */
  function Lower(s: string): string {
    seq(|s|, i requires 0 <= i < |s| =>
      if 'A' <= s[i] <= 'Z' then ((s[i] as int) - ('A' as int) + ('a' as int)) as char else s[i])
  }

  // ---- Resolution ----

  /** The identity keys, strongest first: serial, AD GUID, MACs, hostname, primary IP. */
  const LEVELS := 5

  predicate HasKey(d: Device, level: nat) {
    match level
    case 0 => d.serial != ""
    case 1 => d.adGuid != ""
    case 2 => MacsOf(d.interfaces) != []
    case 3 => d.hostname != ""
    case 4 => d.primaryIp != ""
    case _ => false
  }

  /** Every device the query of this level may return; LIMIT 1 without ORDER BY picks any of them. */
  function Candidates(t: Tables, d: Device, level: nat): set<Id> {
    if !HasKey(d, level) then {} else
    match level
    case 0 => set id | id in t.devices && t.devices[id].serial == Some(d.serial)
    case 1 => set id | id in t.devices && t.devices[id].adGuid == Some(d.adGuid)
    case 2 => set id | id in t.interfaces && HasAnyMac(t.interfaces[id], MacsOf(d.interfaces))
    case 3 => set id | id in t.devices && t.devices[id].hostname.Some?
        && Lower(t.devices[id].hostname.value) == Lower(d.hostname)
    case 4 => set id | id in t.devices && t.devices[id].primaryIp == Some(d.primaryIp)
    case _ => {}
  }

  predicate HasAnyMac(rows: seq<InterfaceRow>, macs: seq<seq<Octet>>) {
    exists i :: 0 <= i < |rows| && rows[i].mac.Some? && rows[i].mac.value in macs
  }

  /** No query before `level` finds anything. */
  predicate NothingBefore(t: Tables, d: Device, level: nat) {
    forall k :: 0 <= k < level ==> Candidates(t, d, k) == {}
  }

  /** `target` is a possible outcome of resolution: a candidate of the first level that has one. */
  ghost predicate ResolvesAt(t: Tables, d: Device, level: nat, target: Option<Id>) {
    && level <= LEVELS
    && NothingBefore(t, d, level)
    && if level == LEVELS then target == None else target.Some? && target.value in Candidates(t, d, level)
  }

  ghost predicate ResolvesTo(t: Tables, d: Device, target: Option<Id>) {
    exists level :: ResolvesAt(t, d, level, target)
  }

  /** The cast of the level's parameter fails: a MAC that is no MACADDR, an address that is no INET. */
  predicate KeyMisfits(d: Device, level: nat) {
    match level
    case 2 => exists m :: m in MacsOf(d.interfaces) && |m| != 6
    case 4 => !InetFits(d.primaryIp)
    case _ => false
  }

  /** Resolution reaches a level whose parameter the database rejects. */
  ghost predicate ResolveFails(t: Tables, d: Device) {
    exists level :: 0 <= level < LEVELS && NothingBefore(t, d, level) && HasKey(d, level) && KeyMisfits(d, level)
  }

  // ---- Scalars and their changes ----

  /** The stored scalars that change events are about, NULL read as "". */
  datatype Scalars = Scalars(kind: string, hostname: string, primaryIp: string, serial: string, osName: string,
      osVersion: string)

  const BLANK := Scalars("", "", "", "", "", "")

  function ScalarsOf(t: Tables, id: Id): Scalars
    requires id in t.devices
  {
    var r := t.devices[id];
    var os := if id in t.os then t.os[id] else OsRow(None, None, None, None, None);
    Scalars(r.kind, Text(r.hostname), Text(r.primaryIp), Text(r.serial), Text(os.name), Text(os.version))
  }

  function AddChange(field: Field, before: string, after: string): seq<Change> {
    if after != "" && after != before then [Change(field, before, after)] else []
  }

  function Diff(ex: Scalars, d: Device): seq<Change> {
    AddChange(Hostname, ex.hostname, d.hostname)
    + AddChange(PrimaryIp, ex.primaryIp, d.primaryIp)
    + AddChange(Serial, ex.serial, d.serial)
    + (if d.kind != "" && d.kind != UNKNOWN then AddChange(DeviceType, ex.kind, d.kind) else [])
    + (if d.os.Some? then
         AddChange(OsName, ex.osName, d.os.value.name) + AddChange(OsVersion, ex.osVersion, d.os.value.version)
       else [])
  }

  // ---- The writes ----

  function NewRow(d: Device, now: int): DeviceRow {
    DeviceRow(d.kind, NullStr(d.hostname), NullStr(d.primaryIp), NullStr(d.serial),
              NullStr(d.assetTag), NullStr(d.adGuid), NullStr(d.source), now, now, now)
  }

  /** The UPDATE statement on one row. */
  function Overlay(r: DeviceRow, d: Device, now: int): DeviceRow {
    DeviceRow(if d.kind != UNKNOWN then d.kind else r.kind,
              Coalesce(NullStr(d.hostname), r.hostname),
              Coalesce(NullStr(d.primaryIp), r.primaryIp),
              Coalesce(NullStr(d.serial), r.serial),
              Coalesce(NullStr(d.assetTag), r.assetTag),
              Coalesce(NullStr(d.adGuid), r.adGuid),
              Coalesce(NullStr(d.source), r.source),
              r.firstSeen, now, now)
  }

  /** Two different rows may not share a serial or an AD GUID; NULLs do not count. */
  predicate SameUniqueKey(a: DeviceRow, b: DeviceRow) {
    (a.serial.Some? && a.serial == b.serial) || (a.adGuid.Some? && a.adGuid == b.adGuid)
  }

  ghost predicate Unique(devices: map<Id, DeviceRow>) {
    forall a, b :: a in devices && b in devices && a != b ==> !SameUniqueKey(devices[a], devices[b])
  }

  /** Writing `row` under `id` is refused by a unique index. */
  predicate Conflicts(devices: map<Id, DeviceRow>, id: Id, row: DeviceRow) {
    exists other :: other in devices && other != id && SameUniqueKey(devices[other], row)
  }

  /** The row an upsert writes: a new one, or the overlay of the resolved device's. */
  function WrittenRow(t: Tables, d: Device, target: Option<Id>, now: int): DeviceRow
    requires target.Some? ==> target.value in t.devices
  {
    if target.Some? then Overlay(t.devices[target.value], d, now) else NewRow(d, now)
  }

  function ReplaceChildren(t: Tables, id: Id, d: Device): Tables
    requires ChildrenFit(d)
  {
    t.(interfaces := PutRows(t.interfaces, id, InterfaceRows(d.interfaces)),
       software := PutRows(t.software, id, SoftwareRows(d.software)),
       users := PutRows(t.users, id, UserRows(d.users)),
       os := if d.os.Some? then t.os[id := ToOsRow(d.os.value)] else t.os,
       hardware := if d.hardware.Some? then t.hardware[id := ToHardwareRow(d.hardware.value)] else t.hardware)
  }

  function LogRows(id: Id, run: string, changes: seq<Change>): seq<ChangeRow> {
    seq(|changes|, i requires 0 <= i < |changes| => ChangeRow(id, NullStr(run), changes[i]))
  }

  /** The changes an upsert reports: none for a new device. */
  function ChangesOf(t: Tables, d: Device, target: Option<Id>): seq<Change>
    requires target.Some? ==> target.value in t.devices
  {
    if target.Some? then Diff(ScalarsOf(t, target.value), d) else []
  }

  /** One call of the upsert: its arguments, the id a new row would get, and the clock. */
  datatype Upsert = Upsert(device: Device, run: string, collected: bool, newId: Id, now: int)

  /** Why a transaction is rolled back. */
  datatype DbError = ConnectionLost | BadValue | UniqueViolation

  /** The error of a healthy connection once resolution gave `target`. */
  function WriteFailure(t: Tables, u: Upsert, target: Option<Id>): Option<DbError>
    requires target.Some? ==> target.value in t.devices
  {
    var id := if target.Some? then target.value else u.newId;
    if !InetFits(u.device.primaryIp) then Some(BadValue)
    else if Conflicts(t.devices, id, WrittenRow(t, u.device, target, u.now)) then Some(UniqueViolation)
    else if u.collected && !ChildrenFit(u.device) then Some(BadValue)
    else None
  }

  /** The committed tables after a successful upsert. */
  function Upserted(t: Tables, u: Upsert, target: Option<Id>): Tables
    requires target.Some? ==> target.value in t.devices
    requires WriteFailure(t, u, target) == None
  {
    var id := if target.Some? then target.value else u.newId;
    var written := t.(devices := t.devices[id := WrittenRow(t, u.device, target, u.now)]);
    var replaced := if u.collected then ReplaceChildren(written, id, u.device) else written;
    replaced.(log := t.log + LogRows(id, u.run, ChangesOf(t, u.device, target)))
  }

  /** Once resolution gave `target`, the writes are accepted and leave `after`. */
  ghost predicate Lands(t: Tables, u: Upsert, target: Option<Id>, after: Tables) {
    && (target.Some? ==> target.value in t.devices)
    && WriteFailure(t, u, target) == None
    && after == Upserted(t, u, target)
  }

  /** `after` is a committed result of the upsert that resolved to `target`. */
  ghost predicate Commits(t: Tables, u: Upsert, target: Option<Id>, after: Tables) {
    ResolvesTo(t, u.device, target) && !ResolveFails(t, u.device) && Lands(t, u, target, after)
  }

  /** A healthy connection rolls the upsert back with `error`. */
  ghost predicate RollsBack(t: Tables, u: Upsert, error: DbError) {
    || (ResolveFails(t, u.device) && error == BadValue)
    || (exists target: Option<Id> ::
          && ResolvesTo(t, u.device, target)
          && (target.Some? ==> target.value in t.devices)
          && WriteFailure(t, u, target) == Some(error))
  }

  /** No child, side or log row without its device. */
  ghost predicate Referential(t: Tables) {
    && t.interfaces.Keys <= t.devices.Keys
    && t.software.Keys <= t.devices.Keys
    && t.users.Keys <= t.devices.Keys
    && t.os.Keys <= t.devices.Keys
    && t.hardware.Keys <= t.devices.Keys
    && (forall i :: 0 <= i < |t.log| ==> t.log[i].device in t.devices)
  }

  /** What the schema enforces. */
  ghost predicate Consistent(t: Tables) {
    Unique(t.devices) && Referential(t)
  }
}
