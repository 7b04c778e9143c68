/**
 The store's upsert as it runs: one transaction of single SQL statements over the tables, any of
 which may fail, after which everything is rolled back.
 */
module DeviceStore {
  import opened Wrappers
  import opened Connection
  import opened Inventory

  function AppendRow<R>(table: map<Id, seq<R>>, id: Id, row: R): map<Id, seq<R>> {
    table[id := RowsOf(table, id) + [row]]
  }

  /** Inserting one more row after `rows` were put gives `rows + [row]`. */
  lemma AppendAfterPut<R>(table: map<Id, seq<R>>, id: Id, rows: seq<R>, row: R)
    ensures AppendRow(PutRows(table, id, rows), id, row) == PutRows(table, id, rows + [row])
  {
    assert RowsOf(PutRows(table, id, rows), id) == rows;
  }

  lemma PutAfterDelete<R>(table: map<Id, seq<R>>, id: Id, rows: seq<R>)
    ensures PutRows(table - {id}, id, rows) == PutRows(table, id, rows)
  {
    if rows != [] {
      assert (table - {id})[id := rows] == table[id := rows];
    }
  }

  /** `after` is the commit of `u` that reports `result`: the device's id and its changes. */
  ghost predicate Succeeds(t: Tables, u: Upsert, after: Tables, result: (Id, seq<Change>)) {
    exists target: Option<Id> ::
      && Commits(t, u, target, after)
      && result == (if target.Some? then target.value else u.newId, ChangesOf(t, u.device, target))
  }

  datatype Relationship = Relationship(parent: Id, child: Id, kind: string)

  class Store {
    /** The tables as the open transaction sees them; between transactions, as committed. */
    var tables: Tables
    /** How many more statements the connection survives; None when it stays up. */
    var budget: Option<nat>
    /** Whether a commit on which the connection breaks has taken effect at the server. */
    const commitLands: bool
    /** The relationship table, which is unique in all three columns. */
    var relationships: set<Relationship>

    constructor (commitLands: bool)
      ensures tables == EMPTY_TABLES && budget == None && this.commitLands == commitLands && relationships == {}
    {
      tables, budget, this.commitLands, relationships := EMPTY_TABLES, None, commitLands, {};
    }

    /** The five prioritised queries, and a snapshot of the matched device's scalars. */
    method ResolveDevice(d: Device) returns (r: Result<Option<(Id, Scalars)>, DbError>)
      requires Consistent(tables)
      modifies this`budget
      ensures old(budget) == None ==> budget == None
      ensures r.Ok? ==> !ResolveFails(tables, d)
      ensures r.Ok? ==> ResolvesTo(tables, d, if r.value.Some? then Some(r.value.value.0) else None)
      ensures r.Ok? && r.value.Some? ==>
                r.value.value.0 in tables.devices && r.value.value.1 == ScalarsOf(tables, r.value.value.0)
      ensures r.Err? && old(budget) == None ==> r.error == BadValue && ResolveFails(tables, d)
    {
      var id: Option<Id> := None;
      ghost var at: nat := LEVELS;
      for level := 0 to LEVELS
        invariant id == None && at == LEVELS && NothingBefore(tables, d, level)
        invariant forall k :: 0 <= k < level && HasKey(d, k) ==> !KeyMisfits(d, k)
        invariant old(budget) == None ==> budget == None
      {
        if !HasKey(d, level) {
          continue;
        }
        if KeyMisfits(d, level) {
          return Err(BadValue);
        }
        var sent: bool;
        sent, budget := Send(budget);
        if !sent {
          return Err(ConnectionLost);
        }
        var hits := Candidates(tables, d, level);
        if hits != {} {
          var hit :| hit in hits;
          id := Some(hit);
          at := level;
          break;
        }
      }
      assert ResolvesAt(tables, d, at, id);
      assert !ResolveFails(tables, d);
      if id == None {
        return Ok(None);
      }
      var read: bool;
      read, budget := Send(budget);
      if !read {
        return Err(ConnectionLost);
      }
      read, budget := Send(budget);
      if !read {
        return Err(ConnectionLost);
      }
      return Ok(Some((id.value, ScalarsOf(tables, id.value))));
    }

    /** Appends a change for every reported field that differs from the stored one. */
    method DiffDevice(ex: Scalars, d: Device) returns (changes: seq<Change>)
      ensures changes == Diff(ex, d)
    {
      changes := AddChange(Hostname, ex.hostname, d.hostname);
      if d.primaryIp != "" {
        changes := changes + AddChange(PrimaryIp, ex.primaryIp, d.primaryIp);
      }
      changes := changes + AddChange(Serial, ex.serial, d.serial);
      if d.kind != "" && d.kind != UNKNOWN {
        changes := changes + AddChange(DeviceType, ex.kind, d.kind);
      }
      if d.os.Some? {
        changes := changes + AddChange(OsName, ex.osName, d.os.value.name);
        changes := changes + AddChange(OsVersion, ex.osVersion, d.os.value.version);
      }
    }

    /** Writes the device row, new or overlaid; a unique index may refuse it. */
    method WriteDevice(d: Device, target: Option<Id>, newId: Id, now: int) returns (failure: Option<DbError>)
      requires target.Some? ==> target.value in tables.devices
      modifies this`tables, this`budget
      ensures old(budget) == None ==> budget == None
      ensures var id := if target.Some? then target.value else newId;
              var row := WrittenRow(old(tables), d, target, now);
              && (failure == None ==>
                    && InetFits(d.primaryIp)
                    && !Conflicts(old(tables.devices), id, row)
                    && tables == old(tables).(devices := old(tables.devices)[id := row]))
              && (failure.Some? && old(budget) == None ==>
                    failure == Some(if !InetFits(d.primaryIp) then BadValue else UniqueViolation)
                    && (InetFits(d.primaryIp) ==> Conflicts(old(tables.devices), id, row)))
    {
      var id := if target.Some? then target.value else newId;
      var row := WrittenRow(tables, d, target, now);
      var sent: bool;
      sent, budget := Send(budget);
      if !sent {
        return Some(ConnectionLost);
      }
      if !InetFits(d.primaryIp) {
        return Some(BadValue);
      }
      if Conflicts(tables.devices, id, row) {
        return Some(UniqueViolation);
      }
      tables := tables.(devices := tables.devices[id := row]);
      return None;
    }

    method InsertInterfaces(id: Id, interfaces: seq<Interface>) returns (failure: Option<DbError>)
      requires id !in tables.interfaces
      modifies this`tables, this`budget
      ensures old(budget) == None ==> budget == None
      ensures failure == None ==>
                && (forall i :: 0 <= i < |interfaces| ==> InterfaceFits(interfaces[i]))
                && tables == old(tables).(interfaces := PutRows(old(tables.interfaces), id, InterfaceRows(interfaces)))
      ensures failure.Some? && old(budget) == None ==>
                failure == Some(BadValue) && exists i :: 0 <= i < |interfaces| && !InterfaceFits(interfaces[i])
    {
      ghost var before := tables;
      assert PutRows(before.interfaces, id, []) == before.interfaces;
      for i := 0 to |interfaces|
        invariant old(budget) == None ==> budget == None
        invariant forall k :: 0 <= k < i ==> InterfaceFits(interfaces[k])
        invariant tables == before.(interfaces := PutRows(before.interfaces, id, InterfaceRows(interfaces[..i])))
      {
        var sent: bool;
        sent, budget := Send(budget);
        if !sent {
          return Some(ConnectionLost);
        }
        if !InterfaceFits(interfaces[i]) {
          return Some(BadValue);
        }
        var row := ToInterfaceRow(interfaces[i]);
        AppendAfterPut(before.interfaces, id, InterfaceRows(interfaces[..i]), row);
        assert InterfaceRows(interfaces[..i + 1]) == InterfaceRows(interfaces[..i]) + [row];
        tables := tables.(interfaces := AppendRow(tables.interfaces, id, row));
      }
      assert interfaces[..|interfaces|] == interfaces;
      return None;
    }

    method InsertSoftware(id: Id, software: seq<Software>) returns (failure: Option<DbError>)
      requires id !in tables.software
      modifies this`tables, this`budget
      ensures old(budget) == None ==> budget == None && failure == None
      ensures failure == None ==>
                tables == old(tables).(software := PutRows(old(tables.software), id, SoftwareRows(software)))
    {
      ghost var before := tables;
      assert PutRows(before.software, id, []) == before.software;
      for i := 0 to |software|
        invariant old(budget) == None ==> budget == None
        invariant tables == before.(software := PutRows(before.software, id, SoftwareRows(software[..i])))
      {
        var sent: bool;
        sent, budget := Send(budget);
        if !sent {
          return Some(ConnectionLost);
        }
        var row := ToSoftwareRow(software[i]);
        AppendAfterPut(before.software, id, SoftwareRows(software[..i]), row);
        assert SoftwareRows(software[..i + 1]) == SoftwareRows(software[..i]) + [row];
        tables := tables.(software := AppendRow(tables.software, id, row));
      }
      assert software[..|software|] == software;
      return None;
    }

    method InsertUsers(id: Id, users: seq<UserAccount>) returns (failure: Option<DbError>)
      requires id !in tables.users
      modifies this`tables, this`budget
      ensures old(budget) == None ==> budget == None && failure == None
      ensures failure == None ==>
                tables == old(tables).(users := PutRows(old(tables.users), id, UserRows(users)))
    {
      ghost var before := tables;
      assert PutRows(before.users, id, []) == before.users;
      for i := 0 to |users|
        invariant old(budget) == None ==> budget == None
        invariant tables == before.(users := PutRows(before.users, id, UserRows(users[..i])))
      {
        var sent: bool;
        sent, budget := Send(budget);
        if !sent {
          return Some(ConnectionLost);
        }
        var row := ToUserRow(users[i]);
        AppendAfterPut(before.users, id, UserRows(users[..i]), row);
        assert UserRows(users[..i + 1]) == UserRows(users[..i]) + [row];
        tables := tables.(users := AppendRow(tables.users, id, row));
      }
      assert users[..|users|] == users;
      return None;
    }

    /** Upserts the one-row side tables. */
    method PutOsAndHardware(id: Id, d: Device) returns (failure: Option<DbError>)
      modifies this`tables, this`budget
      ensures old(budget) == None ==> budget == None
      ensures failure == None ==>
                && (d.hardware.Some? ==> HardwareFits(d.hardware.value))
                && tables == old(tables).(
                     os := if d.os.Some? then old(tables.os)[id := ToOsRow(d.os.value)] else old(tables.os),
                     hardware := if d.hardware.Some? then old(tables.hardware)[id := ToHardwareRow(d.hardware.value)]
                                 else old(tables.hardware))
      ensures failure.Some? && old(budget) == None ==>
                failure == Some(BadValue) && d.hardware.Some? && !HardwareFits(d.hardware.value)
    {
      if d.os.Some? {
        var sent: bool;
        sent, budget := Send(budget);
        if !sent {
          return Some(ConnectionLost);
        }
        tables := tables.(os := tables.os[id := ToOsRow(d.os.value)]);
      }
      if d.hardware.Some? {
        var sent: bool;
        sent, budget := Send(budget);
        if !sent {
          return Some(ConnectionLost);
        }
        if !HardwareFits(d.hardware.value) {
          return Some(BadValue);
        }
        tables := tables.(hardware := tables.hardware[id := ToHardwareRow(d.hardware.value)]);
      }
      return None;
    }

    /** Clears the device's child rows and writes the reported ones. */
    method RewriteChildren(id: Id, d: Device) returns (failure: Option<DbError>)
      modifies this`tables, this`budget
      ensures old(budget) == None ==> budget == None
      ensures failure == None ==> ChildrenFit(d) && tables == ReplaceChildren(old(tables), id, d)
      ensures failure.Some? && old(budget) == None ==> failure == Some(BadValue) && !ChildrenFit(d)
    {
      ghost var before := tables;
      for table := 0 to 3
        invariant old(budget) == None ==> budget == None
        invariant tables == before.(
                    interfaces := if table > 0 then before.interfaces - {id} else before.interfaces,
                    software := if table > 1 then before.software - {id} else before.software,
                    users := if table > 2 then before.users - {id} else before.users)
      {
        var sent: bool;
        sent, budget := Send(budget);
        if !sent {
          return Some(ConnectionLost);
        }
        if table == 0 {
          tables := tables.(interfaces := tables.interfaces - {id});
        } else if table == 1 {
          tables := tables.(software := tables.software - {id});
        } else {
          tables := tables.(users := tables.users - {id});
        }
      }
      failure := InsertInterfaces(id, d.interfaces);
      if failure.Some? {
        return;
      }
      PutAfterDelete(before.interfaces, id, InterfaceRows(d.interfaces));
      failure := PutOsAndHardware(id, d);
      if failure.Some? {
        return;
      }
      failure := InsertSoftware(id, d.software);
      if failure.Some? {
        return;
      }
      PutAfterDelete(before.software, id, SoftwareRows(d.software));
      failure := InsertUsers(id, d.users);
      PutAfterDelete(before.users, id, UserRows(d.users));
    }

    method LogChanges(id: Id, run: string, changes: seq<Change>) returns (failure: Option<DbError>)
      modifies this`tables, this`budget
      ensures old(budget) == None ==> budget == None && failure == None
      ensures failure == None ==> tables == old(tables).(log := old(tables.log) + LogRows(id, run, changes))
    {
      ghost var before := tables;
      for i := 0 to |changes|
        invariant old(budget) == None ==> budget == None
        invariant tables == before.(log := before.log + LogRows(id, run, changes[..i]))
      {
        var sent: bool;
        sent, budget := Send(budget);
        if !sent {
          return Some(ConnectionLost);
        }
        assert LogRows(id, run, changes[..i + 1])
            == LogRows(id, run, changes[..i]) + [ChangeRow(id, NullStr(run), changes[i])];
        tables := tables.(log := tables.log + [ChangeRow(id, NullStr(run), changes[i])]);
      }
      assert changes[..|changes|] == changes;
      return None;
    }

    /** The statements of the transaction before its commit. */
    method Statements(u: Upsert) returns (r: Result<(Id, seq<Change>), DbError>)
      requires Consistent(tables) && u.newId !in tables.devices
      modifies this`tables, this`budget
      ensures old(budget) == None ==> budget == None
      ensures r.Ok? ==> Succeeds(old(tables), u, tables, r.value)
      ensures r.Err? && old(budget) == None ==> RollsBack(old(tables), u, r.error)
    {
      var resolved := ResolveDevice(u.device);
      if resolved.Err? {
        return Err(resolved.error);
      }
      var target := if resolved.value.Some? then Some(resolved.value.value.0) else None;
      var changes := [];
      if resolved.value.Some? {
        changes := DiffDevice(resolved.value.value.1, u.device);
      }
      assert changes == ChangesOf(tables, u.device, target);
      var id := if target.Some? then target.value else u.newId;
      var failure := WriteDevice(u.device, target, u.newId, u.now);
      if failure.Some? {
        return Err(failure.value);
      }
      if u.collected {
        failure := RewriteChildren(id, u.device);
        if failure.Some? {
          return Err(failure.value);
        }
      }
      assert WriteFailure(old(tables), u, target) == None;
      failure := LogChanges(id, u.run, changes);
      if failure.Some? {
        return Err(failure.value);
      }
      assert Commits(old(tables), u, target, tables);
      return Ok((id, changes));
    }

    /**
     The upsert.  Success is a commit of exactly the specified result for some candidate the
     resolution may have picked.  Failure leaves every table unchanged, unless the connection broke on
     a commit that had taken effect, and then all of that result is there.  A healthy connection fails
     only for the stated reasons.
     */
    method UpsertDevice(u: Upsert) returns (r: Result<(Id, seq<Change>), DbError>)
      requires Consistent(tables) && u.newId !in tables.devices
      modifies this`tables, this`budget
      ensures old(budget) == None ==> budget == None
      ensures r.Ok? ==> Succeeds(old(tables), u, tables, r.value)
      ensures r.Err? ==>
                (tables == old(tables)
                 || (commitLands && r.error == ConnectionLost
                     && exists target: Option<Id> :: Commits(old(tables), u, target, tables)))
      ensures r.Err? && old(budget) == None ==> RollsBack(old(tables), u, r.error) && tables == old(tables)
    {
      var begin := tables;
      r := Statements(u);
      if r.Err? {
        tables := begin;
        return;
      }
      var committed: bool;
      committed, budget := Send(budget);
      if !committed {
        r := Err(ConnectionLost);
        if !commitLands {
          tables := begin;
        }
      }
    }

    /** Links two different devices; a link already there is left alone, and one statement decides. */
    method CreateRelationship(parent: Id, child: Id, kind: string) returns (failure: Option<DbError>)
      requires parent in tables.devices && child in tables.devices
      modifies this`relationships, this`budget
      ensures old(budget) == None ==> budget == None && failure == None
      ensures parent == child ==> failure == None && relationships == old(relationships)
      ensures parent != child && failure == None ==>
              relationships == old(relationships) + {Relationship(parent, child, kind)}
      ensures failure.Some? ==>
                (relationships == old(relationships)
                 || (commitLands && relationships == old(relationships) + {Relationship(parent, child, kind)}))
    {
      if parent == child {
        return None;
      }
      var sent: bool;
      sent, budget := Send(budget);
      if sent || commitLands {
        relationships := relationships + {Relationship(parent, child, kind)};
      }
      return if sent then None else Some(ConnectionLost);
    }
  }
}
