/**
 Laws of one upsert: what it keeps, exactly when a unique index stops it, which identity keys lead to
 the device afterwards, and what repeating it does.
 */
module UpsertLaws {
  import opened Wrappers
  import opened Inventory

  /** The reported serial and the reported AD GUID belong to two different stored devices. */
  ghost predicate SplitIdentity(t: Tables, d: Device) {
    exists a, b ::
      && a in t.devices && b in t.devices && a != b
      && d.serial != "" && t.devices[a].serial == Some(d.serial)
      && d.adGuid != "" && t.devices[b].adGuid == Some(d.adGuid)
  }

  /** A resolved device exists, whatever the level that found it. */
  lemma TargetExists(t: Tables, d: Device, target: Option<Id>)
    requires Consistent(t) && ResolvesTo(t, d, target)
    ensures target.Some? ==> target.value in t.devices
  {
    var level :| ResolvesAt(t, d, level, target);
  }

  /** A row whose key nobody holds, or only its own device does, cannot conflict on it. */
  lemma ConflictMeansSplit(t: Tables, d: Device, target: Option<Id>, newId: Id, now: int, other: Id)
    requires Consistent(t) && ResolvesTo(t, d, target)
    requires target.Some? ==> target.value in t.devices
    requires other in t.devices && Some(other) != target
    requires SameUniqueKey(t.devices[other], WrittenRow(t, d, target, now))
    ensures SplitIdentity(t, d)
  {
    var level :| ResolvesAt(t, d, level, target);
    if target.Some? {
      assert !SameUniqueKey(t.devices[other], t.devices[target.value]);
    }
    assert d.serial != "" && t.devices[other].serial == Some(d.serial) ==> other in Candidates(t, d, 0);
    assert d.adGuid != "" && t.devices[other].adGuid == Some(d.adGuid) ==> other in Candidates(t, d, 1);
    assert level == 0;
  }

  /** An upsert violates a unique index exactly when serial and AD GUID name two different devices.
      In particular it never does when the match was by MAC, hostname or address, or there was none. */
  lemma UniqueViolationIffSplit(t: Tables, u: Upsert, target: Option<Id>)
    requires Consistent(t) && u.newId !in t.devices
    requires ResolvesTo(t, u.device, target) && (target.Some? ==> target.value in t.devices)
    requires InetFits(u.device.primaryIp)
    ensures WriteFailure(t, u, target) == Some(UniqueViolation) <==> SplitIdentity(t, u.device)
    ensures SplitIdentity(t, u.device) ==> ResolvesAt(t, u.device, 0, target)
  {
    var d := u.device;
    var id := if target.Some? then target.value else u.newId;
    var row := WrittenRow(t, d, target, u.now);
    var level :| ResolvesAt(t, d, level, target);
    if SplitIdentity(t, d) {
      var a, b :| a in t.devices && b in t.devices && a != b
        && d.serial != "" && t.devices[a].serial == Some(d.serial)
        && d.adGuid != "" && t.devices[b].adGuid == Some(d.adGuid);
      assert a in Candidates(t, d, 0);
      assert level == 0;
      if target.value != a {
        assert SameUniqueKey(t.devices[a], t.devices[target.value]);
        assert false;
      }
      assert SameUniqueKey(t.devices[b], row);
      assert Conflicts(t.devices, id, row);
    }
    if Conflicts(t.devices, id, row) {
      var other :| other in t.devices && other != id && SameUniqueKey(t.devices[other], row);
      ConflictMeansSplit(t, d, target, u.newId, u.now, other);
    }
  }

  /** A written row that conflicts with no other keeps the keys unique. */
  lemma WriteKeepsUnique(devices: map<Id, DeviceRow>, id: Id, row: DeviceRow)
    requires Unique(devices) && !Conflicts(devices, id, row)
    ensures Unique(devices[id := row])
  {
    var after := devices[id := row];
    forall a, b | a in after && b in after && a != b
      ensures !SameUniqueKey(after[a], after[b])
    {
      if a != id && b != id {
        assert !SameUniqueKey(devices[a], devices[b]);
      } else {
        var other := if a == id then b else a;
        assert !SameUniqueKey(devices[other], row);
      }
    }
  }

  lemma PutRowsKeys<R>(table: map<Id, seq<R>>, id: Id, rows: seq<R>, ids: set<Id>)
    requires table.Keys <= ids && id in ids
    ensures PutRows(table, id, rows).Keys <= ids
  {
  }

  lemma ReplaceKeepsReferential(t: Tables, id: Id, d: Device)
    requires Referential(t) && id in t.devices && ChildrenFit(d)
    ensures Referential(ReplaceChildren(t, id, d))
  {
    PutRowsKeys(t.interfaces, id, InterfaceRows(d.interfaces), t.devices.Keys);
    PutRowsKeys(t.software, id, SoftwareRows(d.software), t.devices.Keys);
    PutRowsKeys(t.users, id, UserRows(d.users), t.devices.Keys);
  }

  lemma LogKeepsReferential(t: Tables, id: Id, run: string, changes: seq<Change>)
    requires Referential(t) && id in t.devices
    ensures Referential(t.(log := t.log + LogRows(id, run, changes)))
  {
  }

  /** The schema's constraints survive every committed upsert. */
  lemma UpsertKeepsConsistent(t: Tables, u: Upsert, target: Option<Id>, after: Tables)
    requires Consistent(t) && u.newId !in t.devices && Lands(t, u, target, after)
    ensures Consistent(after)
  {
    var id := if target.Some? then target.value else u.newId;
    var row := WrittenRow(t, u.device, target, u.now);
    WriteKeepsUnique(t.devices, id, row);
    var written := t.(devices := t.devices[id := row]);
    assert Referential(written);
    var replaced := if u.collected then ReplaceChildren(written, id, u.device) else written;
    if u.collected {
      ReplaceKeepsReferential(written, id, u.device);
    }
    LogKeepsReferential(replaced, id, u.run, ChangesOf(t, u.device, target));
  }

  /** The written row carries every scalar the device reported. */
  lemma ReportedKeysAreStored(t: Tables, u: Upsert, target: Option<Id>)
    requires target.Some? ==> target.value in t.devices
    ensures var row := WrittenRow(t, u.device, target, u.now);
            && (u.device.serial != "" ==> row.serial == Some(u.device.serial))
            && (u.device.adGuid != "" ==> row.adGuid == Some(u.device.adGuid))
            && (u.device.hostname != "" ==> row.hostname == Some(u.device.hostname))
            && (u.device.primaryIp != "" ==> row.primaryIp == Some(u.device.primaryIp))
  {
  }

  /** A column takes a reported value, and otherwise stays. */
  predicate TakesOrStays(before: Option<string>, reported: string, after: Option<string>) {
    (reported != "" ==> after == Some(reported)) && (reported == "" ==> after == before)
  }

  /** What a commit leaves in the device's row: of an inserted one, what was reported; of a resolved one, the
      columns the report is silent about stay, and a known type is not made unknown. */
  lemma WrittenColumns(t: Tables, u: Upsert, target: Option<Id>, after: Tables)
    requires Lands(t, u, target, after)
    ensures var id := if target.Some? then target.value else u.newId;
            && id in after.devices
            && var d, row := u.device, after.devices[id];
            && row.lastSeen == u.now && row.updatedAt == u.now
            && (target == None ==>
                  && row.kind == d.kind && row.firstSeen == u.now
                  && TakesOrStays(None, d.hostname, row.hostname) && TakesOrStays(None, d.primaryIp, row.primaryIp)
                  && TakesOrStays(None, d.serial, row.serial) && TakesOrStays(None, d.assetTag, row.assetTag)
                  && TakesOrStays(None, d.adGuid, row.adGuid) && TakesOrStays(None, d.source, row.source))
            && (target == Some(id) ==>
                  var was := t.devices[id];
                  && (d.kind == UNKNOWN ==> row.kind == was.kind) && (d.kind != UNKNOWN ==> row.kind == d.kind)
                  && row.firstSeen == was.firstSeen
                  && TakesOrStays(was.hostname, d.hostname, row.hostname)
                  && TakesOrStays(was.primaryIp, d.primaryIp, row.primaryIp)
                  && TakesOrStays(was.serial, d.serial, row.serial)
                  && TakesOrStays(was.assetTag, d.assetTag, row.assetTag)
                  && TakesOrStays(was.adGuid, d.adGuid, row.adGuid)
                  && TakesOrStays(was.source, d.source, row.source))
  {
  }

  /** A number is stored as it is, and 0 as NULL. */
  predicate StoresNumber(reported: int, after: Option<int>) {
    (reported == 0 ==> after == None) && (reported != 0 ==> after == Some(reported))
  }

  predicate StoresInterface(i: Interface, row: InterfaceRow) {
    && TakesOrStays(None, i.name, row.name) && TakesOrStays(None, i.ip, row.ip)
    && StoresNumber(i.speedMbps, row.speedMbps) && StoresNumber(i.vlan, row.vlan)
    && (row.mac == None <==> i.mac.NoMac?)
    && (i.mac.GoMac? ==> row.mac.Some? && row.mac.value == i.mac.octets)
    && (i.mac.ColumnOnlyMac? ==> row.mac == Some(i.mac.mac))
  }

  predicate StoresSoftware(s: Software, row: SoftwareRow) {
    && row.name == s.name && TakesOrStays(None, s.version, row.version) && TakesOrStays(None, s.vendor, row.vendor)
    && row.installed == s.installed
  }

  predicate StoresUser(u: UserAccount, row: UserRow) {
    && row.username == u.username && TakesOrStays(None, u.fullName, row.fullName)
    && row.lastLogon == u.lastLogon && row.isLocal == u.isLocal
  }

  predicate StoresOs(o: OsInfo, row: OsRow) {
    && TakesOrStays(None, o.family, row.family) && TakesOrStays(None, o.name, row.name)
    && TakesOrStays(None, o.version, row.version) && TakesOrStays(None, o.build, row.build)
    && TakesOrStays(None, o.arch, row.arch)
  }

  predicate StoresHardware(h: Hardware, row: HardwareRow) {
    && TakesOrStays(None, h.vendor, row.vendor) && TakesOrStays(None, h.model, row.model)
    && TakesOrStays(None, h.serial, row.serial) && TakesOrStays(None, h.cpu, row.cpu)
    && StoresNumber(h.cpuCores, row.cpuCores) && StoresNumber(h.ramBytes, row.ramBytes)
  }

  lemma StoredLists(t: Tables, id: Id, d: Device)
    requires ChildrenFit(d)
    ensures var after := ReplaceChildren(t, id, d);
            && RowsOf(after.interfaces, id) == InterfaceRows(d.interfaces)
            && RowsOf(after.software, id) == SoftwareRows(d.software) && RowsOf(after.users, id) == UserRows(d.users)
  {
  }

  /** The lists of a collected report are the rows of the device, one for one, and so are its OS and hardware. */
  lemma StoredReport(t: Tables, u: Upsert, target: Option<Id>, after: Tables)
    requires Lands(t, u, target, after) && u.collected
    ensures var id, d := if target.Some? then target.value else u.newId, u.device;
            var interfaces, software, users :=
              RowsOf(after.interfaces, id), RowsOf(after.software, id), RowsOf(after.users, id);
            && |interfaces| == |d.interfaces| && |software| == |d.software| && |users| == |d.users|
            && (forall k :: 0 <= k < |interfaces| ==> StoresInterface(d.interfaces[k], interfaces[k]))
            && (forall k :: 0 <= k < |software| ==> StoresSoftware(d.software[k], software[k]))
            && (forall k :: 0 <= k < |users| ==> StoresUser(d.users[k], users[k]))
            && (d.os.Some? ==> id in after.os && StoresOs(d.os.value, after.os[id]))
            && (d.hardware.Some? ==> id in after.hardware && StoresHardware(d.hardware.value, after.hardware[id]))
  {
    var id := if target.Some? then target.value else u.newId;
    StoredLists(t.(devices := t.devices[id := WrittenRow(t, u.device, target, u.now)]), id, u.device);
  }

  /** A collected report without an OS, or without hardware, leaves what is known of it. */
  lemma UnreportedSidesStay(t: Tables, u: Upsert, target: Option<Id>, after: Tables)
    requires Lands(t, u, target, after)
    ensures u.device.os == None || !u.collected ==> after.os == t.os
    ensures u.device.hardware == None || !u.collected ==> after.hardware == t.hardware
  {
  }

  /** The log gains one row for each change, about the written device and naming the scan run, if there is one. */
  lemma LoggedRows(t: Tables, u: Upsert, target: Option<Id>, after: Tables)
    requires Lands(t, u, target, after)
    ensures var id, changes := if target.Some? then target.value else u.newId, ChangesOf(t, u.device, target);
            && |after.log| == |t.log| + |changes| && t.log <= after.log
            && forall k :: 0 <= k < |changes| ==>
                 var row := after.log[|t.log| + k];
                 && row.device == id && row.change == changes[k]
                 && (u.run == "" ==> row.run == None) && (u.run != "" ==> row.run == Some(u.run))
  {
    var id, changes := if target.Some? then target.value else u.newId, ChangesOf(t, u.device, target);
    var rows := LogRows(id, u.run, changes);
    assert after.log == t.log + rows;
    forall k | 0 <= k < |changes|
      ensures after.log[|t.log| + k] == rows[k] == ChangeRow(id, NullStr(u.run), changes[k])
    {
    }
  }

  /** Every value of a collected report is one its column holds. */
  ghost predicate ColumnsHold(d: Device) {
    && (forall i :: 0 <= i < |d.interfaces| ==>
          && !d.interfaces[i].mac.BadMac? && (d.interfaces[i].mac.GoMac? ==> |d.interfaces[i].mac.octets| == 6)
          && '%' !in d.interfaces[i].ip && -2147483648 <= d.interfaces[i].vlan <= 2147483647)
    && (d.hardware.Some? ==> -2147483648 <= d.hardware.value.cpuCores <= 2147483647)
  }

  /** The writes are accepted exactly when the address has no zone, no other device holds a reported key, and
      the columns hold what was collected. */
  lemma AcceptedIff(t: Tables, u: Upsert, target: Option<Id>)
    requires Consistent(t) && u.newId !in t.devices && (target.Some? ==> target.value in t.devices)
    ensures WriteFailure(t, u, target) == None
            <==> && '%' !in u.device.primaryIp
                 && (forall other :: other in t.devices && Some(other) != target ==>
                       && (u.device.serial != "" ==> t.devices[other].serial != Some(u.device.serial))
                       && (u.device.adGuid != "" ==> t.devices[other].adGuid != Some(u.device.adGuid)))
                 && (u.collected ==> ColumnsHold(u.device))
  {
    var d, id := u.device, if target.Some? then target.value else u.newId;
    var row := WrittenRow(t, d, target, u.now);
    forall other | other in t.devices && other != id
      ensures SameUniqueKey(t.devices[other], row)
              <==> || (d.serial != "" && t.devices[other].serial == Some(d.serial))
                   || (d.adGuid != "" && t.devices[other].adGuid == Some(d.adGuid))
    {
      if target.Some? {
        assert !SameUniqueKey(t.devices[other], t.devices[id]);
      }
    }
  }

  /**
   After a match at `level`, every stronger key the device carries leads to it and to nothing else
   (for MACs, when the interfaces were stored); and a serial or AD GUID does so at any level.
   */
  lemma KeyPromotion(t: Tables, u: Upsert, level: nat, target: Option<Id>, after: Tables, k: nat)
    requires Consistent(t) && u.newId !in t.devices
    requires ResolvesAt(t, u.device, level, target) && Commits(t, u, target, after)
    requires HasKey(u.device, k) && (k < level || k <= 1)
    requires k == 2 ==> u.collected
    ensures Candidates(after, u.device, k) == {if target.Some? then target.value else u.newId}
  {
    var d := u.device;
    var id := if target.Some? then target.value else u.newId;
    ReportedKeysAreStored(t, u, target);
    if k <= 1 {
      UniqueKeyCandidatesAfter(t, u, target, after, k);
    } else if k == 2 {
      MacCandidatesAfter(t, u, target, after);
    } else {
      assert Candidates(t, d, k) == {};
      assert id in Candidates(after, d, k);
      assert Candidates(after, d, k) <= Candidates(t, d, k) + {id};
    }
  }

  lemma UniqueKeyCandidatesAfter(t: Tables, u: Upsert, target: Option<Id>, after: Tables, k: nat)
    requires Consistent(t) && u.newId !in t.devices && Lands(t, u, target, after)
    requires HasKey(u.device, k) && k <= 1
    ensures Candidates(after, u.device, k) == {if target.Some? then target.value else u.newId}
  {
    var id := if target.Some? then target.value else u.newId;
    ReportedKeysAreStored(t, u, target);
    UpsertKeepsConsistent(t, u, target, after);
    assert id in Candidates(after, u.device, k);
    forall other | other in Candidates(after, u.device, k)
      ensures other == id
    {
      assert other != id ==> !SameUniqueKey(after.devices[other], after.devices[id]);
    }
  }

  lemma MacCandidatesAfter(t: Tables, u: Upsert, target: Option<Id>, after: Tables)
    requires Lands(t, u, target, after) && u.collected
    requires HasKey(u.device, 2) && Candidates(t, u.device, 2) == {}
    ensures Candidates(after, u.device, 2) == {if target.Some? then target.value else u.newId}
  {
    var d := u.device;
    var id := if target.Some? then target.value else u.newId;
    var macs := MacsOf(d.interfaces);
    assert macs[0] in macs;
    var i :| 0 <= i < |d.interfaces| && IsIdentityMac(d.interfaces[i].mac) && d.interfaces[i].mac.octets == macs[0];
    assert after.interfaces == PutRows(t.interfaces, id, InterfaceRows(d.interfaces));
    assert InterfaceFits(d.interfaces[i]);
    assert InterfaceRows(d.interfaces)[i].mac == Some(macs[0]);
    assert HasAnyMac(after.interfaces[id], macs);
    assert Candidates(after, d, 2) <= Candidates(t, d, 2) + {id};
  }

  // ---- Repeating an upsert ----

  /** `b` is `a` with the clock columns of `id` moved to `now`. */
  ghost predicate OnlyClockMoved(a: Tables, b: Tables, id: Id, now: int) {
    id in a.devices && b == a.(devices := a.devices[id := a.devices[id].(lastSeen := now, updatedAt := now)])
  }

  /** A device with a serial or an AD GUID resolves, right after its upsert, to the same id only. */
  lemma ResolvesAgain(t: Tables, u: Upsert, target: Option<Id>, after: Tables, again: Option<Id>)
    requires Consistent(t) && u.newId !in t.devices && Commits(t, u, target, after)
    requires u.device.serial != "" || u.device.adGuid != ""
    requires ResolvesTo(after, u.device, again)
    ensures again == Some(if target.Some? then target.value else u.newId)
    ensures !ResolveFails(after, u.device)
  {
    var level :| ResolvesAt(t, u.device, level, target);
    var k := if u.device.serial != "" then 0 else 1;
    KeyPromotion(t, u, level, target, after, k);
    var level' :| ResolvesAt(after, u.device, level', again);
    assert Candidates(after, u.device, k) != {};
    assert level' == k;
  }

  /** The reported OS name and version are blank or already the stored ones. */
  predicate OsIsStored(t: Tables, d: Device, target: Option<Id>)
    requires target.Some? ==> target.value in t.devices
  {
    var stored := if target.Some? then ScalarsOf(t, target.value) else BLANK;
    d.os.Some? ==>
      && (d.os.value.name == "" || d.os.value.name == stored.osName)
      && (d.os.value.version == "" || d.os.value.version == stored.osVersion)
  }

  /** A value that is blank or already there is no change. */
  predicate IsNoChange(reported: string, stored: string) {
    reported == "" || reported == stored
  }

  lemma DiffIsEmptyIff(ex: Scalars, d: Device)
    ensures Diff(ex, d) == []
            <==> && IsNoChange(d.hostname, ex.hostname) && IsNoChange(d.primaryIp, ex.primaryIp)
                 && IsNoChange(d.serial, ex.serial) && (d.kind == UNKNOWN || IsNoChange(d.kind, ex.kind))
                 && (d.os.Some? ==> IsNoChange(d.os.value.name, ex.osName)
                                    && IsNoChange(d.os.value.version, ex.osVersion))
  {
  }

  /** The same report differs from what its upsert just stored exactly when it carries an OS that an
      upsert with nothing collected did not write. */
  lemma NothingToReportIff(t: Tables, u: Upsert, target: Option<Id>, after: Tables)
    requires Lands(t, u, target, after)
    requires target == None ==> u.newId !in t.os
    ensures var id := if target.Some? then target.value else u.newId;
            id in after.devices && (Diff(ScalarsOf(after, id), u.device) == [] <==>
                u.collected || OsIsStored(t, u.device, target))
  {
    ReportedKeysAreStored(t, u, target);
    var id := if target.Some? then target.value else u.newId;
    DiffIsEmptyIff(ScalarsOf(after, id), u.device);
  }

  lemma PutRowsTwice<R>(table: map<Id, seq<R>>, id: Id, rows: seq<R>)
    ensures PutRows(PutRows(table, id, rows), id, rows) == PutRows(table, id, rows)
  {
  }

  /** Rewriting the children a report just wrote changes nothing. */
  lemma ChildrenStay(t: Tables, u: Upsert, target: Option<Id>, after: Tables)
    requires Lands(t, u, target, after) && u.collected
    ensures ChildrenFit(u.device)
    ensures ReplaceChildren(after, if target.Some? then target.value else u.newId, u.device) == after
  {
    var id := if target.Some? then target.value else u.newId;
    PutRowsTwice(t.interfaces, id, InterfaceRows(u.device.interfaces));
    PutRowsTwice(t.software, id, SoftwareRows(u.device.software));
    PutRowsTwice(t.users, id, UserRows(u.device.users));
  }

  /** An upsert without changes whose children are already there only writes its row. */
  lemma OnlyTheRowIsWritten(t: Tables, v: Upsert, id: Id)
    requires id in t.devices && WriteFailure(t, v, Some(id)) == None
    requires ChangesOf(t, v.device, Some(id)) == []
    requires v.collected ==> ReplaceChildren(t, id, v.device) == t
    ensures Upserted(t, v, Some(id)) == t.(devices := t.devices[id := WrittenRow(t, v.device, Some(id), v.now)])
  {
    assert LogRows(id, v.run, []) == [];
    assert t.log + [] == t.log;
    if v.collected {
      var written := t.(devices := t.devices[id := WrittenRow(t, v.device, Some(id), v.now)]);
      assert ReplaceChildren(written, id, v.device) == ReplaceChildren(t, id, v.device).(devices := written.devices);
    }
  }

  /** The second write is accepted, and differs from the stored row only in its clock columns. */
  lemma SecondWrite(t: Tables, u: Upsert, target: Option<Id>, after: Tables, v: Upsert)
    requires Consistent(t) && u.newId !in t.devices && Lands(t, u, target, after)
    requires v.device == u.device && v.collected == u.collected
    ensures var id := if target.Some? then target.value else u.newId;
            && id in after.devices
            && WrittenRow(after, v.device, Some(id), v.now) == after.devices[id].(lastSeen := v.now, updatedAt := v.now)
            && WriteFailure(after, v, Some(id)) == None
  {
    var id := if target.Some? then target.value else u.newId;
    ReportedKeysAreStored(t, u, target);
    UpsertKeepsConsistent(t, u, target, after);
    var row := WrittenRow(after, v.device, Some(id), v.now);
    forall other | other in after.devices && other != id
      ensures !SameUniqueKey(after.devices[other], row)
    {
      assert !SameUniqueKey(after.devices[other], after.devices[id]);
    }
  }

  /** An upsert with changes appends to the log. */
  lemma ChangesAreLogged(t: Tables, v: Upsert, id: Id)
    requires id in t.devices && WriteFailure(t, v, Some(id)) == None
    ensures |Upserted(t, v, Some(id)).log| == |t.log| + |ChangesOf(t, v.device, Some(id))|
  {
  }

  /**
   Upserting the same report again resolves to the same device whatever the database picks and cannot
   fail.  It reports no change, and moves nothing but the clock columns, exactly when the children were
   collected or the reported OS is none or already stored.
   */
  lemma UpsertIdempotentIff(t: Tables, u: Upsert, target: Option<Id>, after: Tables, v: Upsert, again: Option<Id>)
    requires Consistent(t) && u.newId !in t.devices && Commits(t, u, target, after)
    requires u.device.serial != "" || u.device.adGuid != ""
    requires v.device == u.device && v.collected == u.collected && v.newId !in after.devices
    requires ResolvesTo(after, u.device, again)
    ensures again == Some(if target.Some? then target.value else u.newId)
    ensures again.value in after.devices && !ResolveFails(after, v.device) && WriteFailure(after, v, again) == None
    ensures ChangesOf(after, v.device, again) == [] <==> u.collected || OsIsStored(t, u.device, target)
    ensures OnlyClockMoved(after, Upserted(after, v, again), again.value, v.now)
            <==> u.collected || OsIsStored(t, u.device, target)
  {
    var id := if target.Some? then target.value else u.newId;
    ResolvesAgain(t, u, target, after, again);
    NothingToReportIff(t, u, target, after);
    SecondWrite(t, u, target, after, v);
    ChangesAreLogged(after, v, id);
    if u.collected || OsIsStored(t, u.device, target) {
      if u.collected {
        ChildrenStay(t, u, target, after);
      }
      OnlyTheRowIsWritten(after, v, id);
    }
  }

  // ---- Instances of the two conditions ----

  const EMPTY_ROW := DeviceRow("linux", None, None, None, None, None, None, 0, 0, 0)
  const TWO_HOSTS := EMPTY_TABLES.(devices := map[0 := EMPTY_ROW.(serial := Some("S")),
      1 := EMPTY_ROW.(adGuid := Some("G"))])

  /** A report of the discovery kind, nothing collected. */
  function Seen(serial: string, adGuid: string, os: Option<OsInfo>): Upsert {
    Upsert(Device("linux", "", "", serial, "", adGuid, "", [], os, None, [], []), "", false, 2, 1)
  }

  /** The serial of one stored device with the AD GUID of another is refused. */
  lemma SplitIdentityExample()
    ensures var u := Seen("S", "G", None);
            && Consistent(TWO_HOSTS) && ResolvesTo(TWO_HOSTS, u.device, Some(0))
            && WriteFailure(TWO_HOSTS, u, Some(0)) == Some(UniqueViolation)
  {
    var u := Seen("S", "G", None);
    assert 0 in Candidates(TWO_HOSTS, u.device, 0);
    assert ResolvesAt(TWO_HOSTS, u.device, 0, Some(0));
    assert TWO_HOSTS.devices[1].adGuid == Some(u.device.adGuid);
    UniqueViolationIffSplit(TWO_HOSTS, u, Some(0));
  }

  /** An OS reported with nothing collected is not stored, and so it is reported as a change every time. */
  lemma RepeatedOsExample()
    ensures var u := Seen("S", "", Some(OsInfo("", "NixOS", "", "", "")));
            && Consistent(TWO_HOSTS) && WriteFailure(TWO_HOSTS, u, Some(0)) == None
            && var after := Upserted(TWO_HOSTS, u, Some(0));
            && Commits(TWO_HOSTS, u, Some(0), after)
            && ResolvesTo(after, u.device, Some(0)) && ChangesOf(after, u.device, Some(0)) != []
  {
    var u := Seen("S", "", Some(OsInfo("", "NixOS", "", "", "")));
    assert 0 in Candidates(TWO_HOSTS, u.device, 0);
    assert ResolvesAt(TWO_HOSTS, u.device, 0, Some(0));
    UniqueViolationIffSplit(TWO_HOSTS, u, Some(0));
    var after := Upserted(TWO_HOSTS, u, Some(0));
    assert 0 in Candidates(after, u.device, 0);
    assert ResolvesAt(after, u.device, 0, Some(0));
    NothingToReportIff(TWO_HOSTS, u, Some(0), after);
  }
}
