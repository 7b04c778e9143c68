/** Identity resolution said in columns: which stored device a report is taken for, and when it is refused. */
module Resolution {
  import opened Wrappers
  import opened Inventory

  // ---- When two values name the same thing ----

  /** One letter in two cases; only the ASCII letters have two. */
  predicate SameLetter(a: char, b: char) {
    a == b
    || ('a' <= a <= 'z' && b as int + 32 == a as int)
    || ('a' <= b <= 'z' && a as int + 32 == b as int)
  }

  predicate SameUpToCase(a: string, b: string) {
    |a| == |b| && forall i :: 0 <= i < |a| ==> SameLetter(a[i], b[i])
  }

  /** lower() makes exactly those strings equal that differ in the case of ASCII letters only. */
  lemma LowerFoldsCase(a: string, b: string)
    ensures Lower(a) == Lower(b) <==> SameUpToCase(a, b)
  {
    if SameUpToCase(a, b) {
      assert forall i :: 0 <= i < |a| ==> Lower(a)[i] == Lower(b)[i];
    }
    if Lower(a) == Lower(b) {
      assert |Lower(a)| == |Lower(b)|;
      forall i | 0 <= i < |a|
        ensures SameLetter(a[i], b[i])
      {
        assert Lower(a)[i] == Lower(b)[i];
      }
    }
  }

  /** A MAC that names one card: parsed, and not marked as made up locally. */
  predicate IsUniversal(m: MacText) {
    m.GoMac? && m.octets != [] && m.octets[0] % 4 < 2
  }

  lemma IdentityMacIff(m: MacText)
    ensures IsIdentityMac(m) <==> IsUniversal(m)
  {
  }

  // ---- The stored devices a report shares a key with ----

  predicate SharesSerial(t: Tables, d: Device, id: Id) {
    d.serial != "" && id in t.devices && t.devices[id].serial == Some(d.serial)
  }

  predicate SharesAdGuid(t: Tables, d: Device, id: Id) {
    d.adGuid != "" && id in t.devices && t.devices[id].adGuid == Some(d.adGuid)
  }

  /** Row `i` of the device's interfaces has the universal MAC of reported interface `j`. */
  predicate SameCard(t: Tables, d: Device, id: Id, i: int, j: int) {
    && id in t.interfaces && 0 <= i < |t.interfaces[id]| && 0 <= j < |d.interfaces|
    && IsUniversal(d.interfaces[j].mac)
    && t.interfaces[id][i].mac.Some? && t.interfaces[id][i].mac.value == d.interfaces[j].mac.octets
  }

  ghost predicate SharesMac(t: Tables, d: Device, id: Id) {
    exists i, j :: SameCard(t, d, id, i, j)
  }

  predicate SharesHostname(t: Tables, d: Device, id: Id) {
    && d.hostname != "" && id in t.devices
    && t.devices[id].hostname.Some? && SameUpToCase(t.devices[id].hostname.value, d.hostname)
  }

  predicate SharesAddress(t: Tables, d: Device, id: Id) {
    d.primaryIp != "" && id in t.devices && t.devices[id].primaryIp == Some(d.primaryIp)
  }

  lemma MacCandidates(t: Tables, d: Device, id: Id)
    ensures id in Candidates(t, d, 2) <==> SharesMac(t, d, id)
  {
    var macs := MacsOf(d.interfaces);
    if id in Candidates(t, d, 2) {
      var i :| 0 <= i < |t.interfaces[id]| && t.interfaces[id][i].mac.Some? && t.interfaces[id][i].mac.value in macs;
      var j :| 0 <= j < |d.interfaces| && IsIdentityMac(d.interfaces[j].mac)
               && d.interfaces[j].mac.octets == t.interfaces[id][i].mac.value;
      IdentityMacIff(d.interfaces[j].mac);
      assert SameCard(t, d, id, i, j);
    }
    if i, j :| SameCard(t, d, id, i, j) {
      IdentityMacIff(d.interfaces[j].mac);
      assert d.interfaces[j].mac.octets in macs;
      assert t.interfaces[id][i].mac.value in macs;
    }
  }

  lemma CandidatesShare(t: Tables, d: Device, id: Id)
    ensures id in Candidates(t, d, 0) <==> SharesSerial(t, d, id)
    ensures id in Candidates(t, d, 1) <==> SharesAdGuid(t, d, id)
    ensures id in Candidates(t, d, 2) <==> SharesMac(t, d, id)
    ensures id in Candidates(t, d, 3) <==> SharesHostname(t, d, id)
    ensures id in Candidates(t, d, 4) <==> SharesAddress(t, d, id)
  {
    MacCandidates(t, d, id);
    if id in t.devices && t.devices[id].hostname.Some? {
      LowerFoldsCase(t.devices[id].hostname.value, d.hostname);
    }
  }

  // ---- Resolution ----

  /** What a report is taken for: a device with its serial if there is any, or else with its AD GUID, or else
      with one of its cards, or else with its hostname, or else with its address, or else a new one. */
  ghost predicate TakenFor(t: Tables, d: Device, target: Option<Id>) {
    if exists id :: SharesSerial(t, d, id) then target.Some? && SharesSerial(t, d, target.value)
    else if exists id :: SharesAdGuid(t, d, id) then target.Some? && SharesAdGuid(t, d, target.value)
    else if exists id :: SharesMac(t, d, id) then target.Some? && SharesMac(t, d, target.value)
    else if exists id :: SharesHostname(t, d, id) then target.Some? && SharesHostname(t, d, target.value)
    else if exists id :: SharesAddress(t, d, id) then target.Some? && SharesAddress(t, d, target.value)
    else target == None
  }

  /** No stored device has anything in common with the report by which it could be known. */
  ghost predicate IsUnknown(t: Tables, d: Device) {
    forall id :: !SharesSerial(t, d, id) && !SharesAdGuid(t, d, id) && !SharesMac(t, d, id)
                 && !SharesHostname(t, d, id) && !SharesAddress(t, d, id)
  }

  lemma AllCandidatesShare(t: Tables, d: Device)
    ensures Candidates(t, d, 0) == {} <==> !exists id :: SharesSerial(t, d, id)
    ensures Candidates(t, d, 1) == {} <==> !exists id :: SharesAdGuid(t, d, id)
    ensures Candidates(t, d, 2) == {} <==> !exists id :: SharesMac(t, d, id)
    ensures Candidates(t, d, 3) == {} <==> !exists id :: SharesHostname(t, d, id)
    ensures Candidates(t, d, 4) == {} <==> !exists id :: SharesAddress(t, d, id)
  {
    forall id {
      CandidatesShare(t, d, id);
    }
  }

  /** The first level with a candidate, or LEVELS. */
  lemma FirstLevel(t: Tables, d: Device) returns (level: nat)
    ensures level <= LEVELS && NothingBefore(t, d, level)
    ensures level < LEVELS ==> Candidates(t, d, level) != {}
  {
    level := 0;
    while level < LEVELS && Candidates(t, d, level) == {}
      invariant level <= LEVELS && NothingBefore(t, d, level)
    {
      level := level + 1;
    }
  }

  lemma ResolvesAtFirst(t: Tables, d: Device, level: nat, target: Option<Id>)
    requires level <= LEVELS && NothingBefore(t, d, level) && (level < LEVELS ==> Candidates(t, d, level) != {})
    ensures ResolvesTo(t, d, target)
            <==> if level == LEVELS then target == None else target.Some? && target.value in Candidates(t, d, level)
  {
    if ResolvesTo(t, d, target) {
      var other: nat :| ResolvesAt(t, d, other, target);
      if other < level {
        assert Candidates(t, d, other) == {};
      }
    }
    if if level == LEVELS then target == None else target.Some? && target.value in Candidates(t, d, level) {
      assert ResolvesAt(t, d, level, target);
    }
  }

  /** Resolution takes a report for exactly such a device. */
  lemma ResolvesToIff(t: Tables, d: Device, target: Option<Id>)
    ensures ResolvesTo(t, d, target) <==> TakenFor(t, d, target)
  {
    var level := FirstLevel(t, d);
    ResolvesAtFirst(t, d, level, target);
    AllCandidatesShare(t, d);
    if target.Some? {
      CandidatesShare(t, d, target.value);
    }
    assert level == 0 || Candidates(t, d, 0) == {};
    assert level <= 1 || Candidates(t, d, 1) == {};
    assert level <= 2 || Candidates(t, d, 2) == {};
    assert level <= 3 || Candidates(t, d, 3) == {};
    assert level <= 4 || Candidates(t, d, 4) == {};
  }

  /** A report becomes a new device exactly when it is unknown. */
  lemma ResolvesToNoneIff(t: Tables, d: Device)
    ensures ResolvesTo(t, d, None) <==> IsUnknown(t, d)
  {
    ResolvesToIff(t, d, None);
  }

  /** Resolution is refused exactly when it comes to compare a card whose MAC is not of six octets, or an
      address with a zone. */
  lemma ResolveFailsIff(t: Tables, d: Device)
    ensures ResolveFails(t, d)
            <==> && (forall id :: !SharesSerial(t, d, id) && !SharesAdGuid(t, d, id))
                 && ((exists j :: 0 <= j < |d.interfaces| && IsUniversal(d.interfaces[j].mac)
                                  && |d.interfaces[j].mac.octets| != 6)
                     || ('%' in d.primaryIp && forall id :: !SharesMac(t, d, id) && !SharesHostname(t, d, id)))
  {
    AllCandidatesShare(t, d);
    forall j | 0 <= j < |d.interfaces| {
      IdentityMacIff(d.interfaces[j].mac);
    }
    var macs := MacsOf(d.interfaces);
    assert (exists m :: m in macs && |m| != 6)
      <==> exists j :: 0 <= j < |d.interfaces| && IsUniversal(d.interfaces[j].mac)
                       && |d.interfaces[j].mac.octets| != 6;
    assert NothingBefore(t, d, 2) <==> Candidates(t, d, 0) == {} && Candidates(t, d, 1) == {};
    assert NothingBefore(t, d, 4) <==> NothingBefore(t, d, 2) && Candidates(t, d, 2) == {} && Candidates(t, d, 3) == {};
    assert ResolveFails(t, d)
      <==> (NothingBefore(t, d, 2) && KeyMisfits(d, 2)) || (NothingBefore(t, d, 4) && HasKey(d, 4) && KeyMisfits(d, 4));
  }

  // ---- An instance: a lease that moved ----

  const LAPTOP := DeviceRow("unknown", Some("Laptop"), Some("10.0.0.9"), None, None, None, None, 0, 0, 0)
  const PRINTER := DeviceRow("printer", Some("printer"), Some("10.0.0.5"), None, None, None, None, 0, 0, 0)
  const LEASED := EMPTY_TABLES.(devices := map[0 := LAPTOP, 1 := PRINTER])

  /** The laptop now has the printer's old address, and is still the laptop. */
  lemma MovedLeaseExample(target: Option<Id>)
    ensures var d := Device("unknown", "laptop", "10.0.0.5", "", "", "", "", [], None, None, [], []);
            ResolvesTo(LEASED, d, target) <==> target == Some(0)
  {
    var d := Device("unknown", "laptop", "10.0.0.5", "", "", "", "", [], None, None, [], []);
    ResolvesToIff(LEASED, d, target);
    assert SameUpToCase("Laptop", "laptop");
    assert SharesHostname(LEASED, d, 0);
    assert |"printer"| != |"laptop"|;
  }
}
