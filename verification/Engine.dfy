/** The scan engine: what it sends to the store for one host, and what it counts over all of them. */
module Engine {
  import opened Wrappers
  import opened Inventory
  import opened DeviceStore
  import opened Timeline
  import opened Fingerprint
  import opened UpsertLaws
  import opened HostMerge
  import opened Sequences
  import Transactions
  import WorkerPool

  // ---- Collectors ----

  /** A VM resource of a hypervisor, as decoded. */
  datatype Vm = Vm(name: string, maxCpu: int, maxMem: int)

  datatype Reply =
    | Gathered(device: Device, vms: seq<Vm>)
    | NoCredential
    | Failed(message: string)

  /** One collector that supports the host's class, and what it answers. */
  datatype Attempt = Attempt(name: string, reply: Reply)

  const BARE := Device("", "", "", "", "", "", "", [], None, None, [], [])

  function VmDevice(vm: Vm): Device {
    BARE.(kind := "vm", hostname := vm.name, source := "proxmox",
          hardware := if vm.maxCpu > 0 || vm.maxMem > 0
                      then Some(Hardware("", "", "", "", vm.maxCpu, vm.maxMem)) else None)
  }

  function NamedVm(vm: Vm): Option<Device> {
    if vm.name == "" then None else Some(VmDevice(vm))
  }

  lemma {:induction false} NamedVms(vms: seq<Vm>)
    ensures forall d :: d in Somes(NamedVm, vms) ==> d.kind == "vm" && d.os == None
  {
    if vms != [] {
      NamedVms(vms[..|vms| - 1]);
    }
  }

  /** The related devices of a hypervisor: its named VMs, in order. */
  function Related(vms: seq<Vm>): (related: seq<Device>)
    ensures forall d :: d in related ==> d.kind == "vm" && d.os == None
  {
    NamedVms(vms);
    Somes(NamedVm, vms)
  }

  method BuildVms(vms: seq<Vm>) returns (related: seq<Device>)
    ensures related == Related(vms)
  {
    related := [];
    for i := 0 to |vms|
      invariant related == Related(vms[..i])
    {
      assert vms[..i + 1][..i] == vms[..i];
      if vms[i].name == "" {
        continue;
      }
      related := related + [VmDevice(vms[i])];
    }
    assert vms[..|vms|] == vms;
  }

  /** A VM as it is stored: its name, and its figures when the hypervisor reports any. */
  predicate IsVm(d: Device, vm: Vm) {
    && d.kind == "vm" && d.hostname == vm.name && d.source == "proxmox"
    && d.primaryIp == "" && d.serial == "" && d.assetTag == "" && d.adGuid == "" && d.os == None
    && d.interfaces == [] && d.software == [] && d.users == []
    && (d.hardware.None? <==> vm.maxCpu <= 0 && vm.maxMem <= 0)
    && (d.hardware.Some? ==> d.hardware.value == Hardware("", "", "", "", vm.maxCpu, vm.maxMem))
  }

  /** The related devices are the VMs that have a name, each once and in order. */
  lemma RelatedAreTheNamed(vms: seq<Vm>) returns (picks: seq<nat>)
    ensures IsPick(picks, |vms|) && |picks| == |Related(vms)|
    ensures forall i :: 0 <= i < |vms| ==> (i in picks <==> vms[i].name != "")
    ensures forall k :: 0 <= k < |picks| ==> IsVm(Related(vms)[k], vms[picks[k]])
  {
    picks := SomesArePicked(NamedVm, vms);
    assert forall i :: 0 <= i < |vms| ==> Each(NamedVm, vms)[i] == NamedVm(vms[i]);
    forall k | 0 <= k < |picks|
      ensures IsVm(Related(vms)[k], vms[picks[k]])
    {
      assert Some(Related(vms)[k]) == NamedVm(vms[picks[k]]);
    }
  }

  /** Collector output over the discovery base: its own valid address and known type win, so the discovered
      address is preserved only where the collector brings no other. */
  function MergeDevice(base: Device, collected: Device, source: string): (d: Device)
    requires base.kind != ""
    ensures d.primaryIp == base.primaryIp <==> collected.primaryIp == "" || collected.primaryIp == base.primaryIp
    ensures collected.primaryIp != "" ==> d.primaryIp == collected.primaryIp
    ensures collected.kind != "" && collected.kind != UNKNOWN ==> d.kind == collected.kind
    ensures collected.kind == "" || collected.kind == UNKNOWN ==> d.kind == base.kind
    ensures d.kind != "" && (d.kind == UNKNOWN ==> base.kind == UNKNOWN)
    ensures d.source == collected.source || (collected.source == "" && d.source == source)
    ensures (d.primaryIp == "" ==> base.primaryIp == "") && (d.source == "" ==> source == "")
    ensures d == collected.(primaryIp := d.primaryIp, kind := d.kind, source := d.source)
  {
    collected.(primaryIp := if collected.primaryIp == "" then base.primaryIp else collected.primaryIp,
               kind := if collected.kind == "" || collected.kind == UNKNOWN then base.kind else collected.kind,
               source := if collected.source == "" then source else collected.source)
  }

  // ---- Results and events ----

  datatype Status = Discovered | Collected | Failure

  datatype HostResult = HostResult(
    addr: string, deviceClass: DeviceClass, deviceId: Option<Id>, collector: string,
    changes: nat, err: Option<DbError>, collectErr: string)

  /** The zero value, which the worker pool leaves for a host it never started. */
  const NO_RESULT := HostResult("", ClassUnknown, None, "", 0, None, "")

  datatype ScanEvent = ScanEvent(addr: string, status: Status, changes: nat)

  function EventOf(hr: HostResult): ScanEvent {
    ScanEvent(hr.addr,
              if hr.err.Some? then Failure
              else if hr.collector != "" then Collected
              else if hr.collectErr != "" then Failure
              else Discovered,
              hr.changes)
  }

  /** What is reported of a host: the store's failure counts before the collector's success, and that before
      the collectors' complaints. */
  lemma EventTells(hr: HostResult)
    ensures var e := EventOf(hr);
            && e.addr == hr.addr && e.changes == hr.changes
            && (e.status == Collected <==> hr.err == None && hr.collector != "")
            && (e.status == Failure <==> hr.err != None || (hr.collector == "" && hr.collectErr != ""))
            && (e.status == Discovered <==> hr.err == None && hr.collector == "" && hr.collectErr == "")
  {
  }

  /** Stored or failed, never both. */
  predicate Settled(hr: HostResult) {
    hr.err.None? <==> hr.deviceId.Some?
  }

  /** The collector whose answer is used: the first that gathered something. */
  function Answer(attempts: seq<Attempt>): (a: Option<Attempt>)
    ensures a.Some? ==> exists i :: IsFirstGathered(attempts, i) && attempts[i] == a.value
    ensures a.None? <==> forall i :: 0 <= i < |attempts| ==> !attempts[i].reply.Gathered?
  {
    if attempts == [] then None
    else if attempts[0].reply.Gathered? then
      assert IsFirstGathered(attempts, 0);
      Some(attempts[0])
    else
      var a := Answer(attempts[1..]);
      assert a.Some? ==> exists i :: IsFirstGathered(attempts, i) && attempts[i] == a.value by {
        if i :| a.Some? && IsFirstGathered(attempts[1..], i) && attempts[1..][i] == a.value {
          assert IsFirstGathered(attempts, i + 1);
        }
      }
      a
  }

  ghost predicate IsFirstGathered(attempts: seq<Attempt>, i: int) {
    0 <= i < |attempts| && attempts[i].reply.Gathered? && forall k :: 0 <= k < i ==> !attempts[k].reply.Gathered?
  }

  function Complaint(a: Attempt): Option<string> {
    if a.reply.Failed? then Some(a.name + ": " + a.reply.message) else None
  }

  /** What the failed collectors said; one without a credential says nothing. */
  function Complaints(attempts: seq<Attempt>): seq<string> {
    Somes(Complaint, attempts)
  }

  /** The complaints are those of the collectors that failed, each once and in order. */
  lemma ComplaintsAreTheFailures(attempts: seq<Attempt>) returns (picks: seq<nat>)
    ensures IsPick(picks, |attempts|) && |picks| == |Complaints(attempts)|
    ensures forall i :: 0 <= i < |attempts| ==> (i in picks <==> attempts[i].reply.Failed?)
    ensures forall k :: 0 <= k < |picks| ==>
              && attempts[picks[k]].reply.Failed?
              && Complaints(attempts)[k] == attempts[picks[k]].name + ": " + attempts[picks[k]].reply.message
  {
    picks := SomesArePicked(Complaint, attempts);
    assert forall i :: 0 <= i < |attempts| ==> Each(Complaint, attempts)[i] == Complaint(attempts[i]);
    forall k | 0 <= k < |picks|
      ensures attempts[picks[k]].reply.Failed?
      ensures Complaints(attempts)[k] == attempts[picks[k]].name + ": " + attempts[picks[k]].reply.message
    {
      assert Some(Complaints(attempts)[k]) == Complaint(attempts[picks[k]]);
    }
  }

  /** strings.Join(parts, "; "). */
  function Join(parts: seq<string>): (s: string)
    ensures parts == [] ==> s == ""
    ensures (exists p :: p in parts && p != "") ==> s != ""
  {
    if parts == [] then "" else if |parts| == 1 then parts[0] else parts[0] + "; " + Join(parts[1..])
  }

  /** Every part but the first comes after a separator. */
  lemma {:induction false} JoinOneMore(parts: seq<string>, last: string)
    ensures Join(parts + [last]) == if parts == [] then last else Join(parts) + "; " + last
  {
    if |parts| == 1 {
      assert (parts + [last])[1..] == [last];
    } else if |parts| > 1 {
      assert (parts + [last])[1..] == parts[1..] + [last];
      JoinOneMore(parts[1..], last);
    }
  }

  /** What discovery alone knows of a host. */
  function BaseDevice(addr: string, openPorts: seq<int>): (d: Device)
    ensures d.kind != "" && d.os == None
  {
    BARE.(kind := ClassToType(ClassifyByPorts(openPorts)), primaryIp := addr, source := "discovery")
  }

  /** What is stored of a host: the first answer over the base, or the base alone. */
  function HostDevice(base: Device, attempts: seq<Attempt>): (d: Device)
    requires base.kind != "" && base.os == None
    ensures d.kind != "" && (d.os.Some? ==> Answer(attempts).Some?)
  {
    match Answer(attempts)
    case Some(a) => MergeDevice(base, a.reply.device, a.name)
    case None => base
  }

  /** `d` is what the attempt gathered; an address, a known type or a source it lacks comes from discovery. */
  ghost predicate IsGathered(d: Device, addr: string, kind: string, a: Attempt)
    requires a.reply.Gathered?
  {
    var g := a.reply.device;
    && d.hostname == g.hostname && d.serial == g.serial && d.assetTag == g.assetTag && d.adGuid == g.adGuid
    && d.interfaces == g.interfaces && d.os == g.os && d.hardware == g.hardware
    && d.software == g.software && d.users == g.users
    && (g.primaryIp != "" ==> d.primaryIp == g.primaryIp) && (g.primaryIp == "" ==> d.primaryIp == addr)
    && (g.kind != "" && g.kind != UNKNOWN ==> d.kind == g.kind) && (g.kind in {"", UNKNOWN} ==> d.kind == kind)
    && (g.source != "" ==> d.source == g.source) && (g.source == "" ==> d.source == a.name)
  }

  /** `d` is a host of which nothing but its address and its type is known. */
  ghost predicate IsBare(d: Device, addr: string, kind: string) {
    && d.primaryIp == addr && d.kind == kind && d.source == "discovery"
    && d.hostname == "" && d.serial == "" && d.assetTag == "" && d.adGuid == ""
    && d.interfaces == [] && d.os == None && d.hardware == None && d.software == [] && d.users == []
  }

  ghost predicate NothingGathered(attempts: seq<Attempt>) {
    forall i :: 0 <= i < |attempts| ==> !attempts[i].reply.Gathered?
  }

  function CollectorName(attempts: seq<Attempt>): string {
    match Answer(attempts)
    case Some(a) => a.name
    case None => ""
  }

  /** An id that no device has; stands for gen_random_uuid. */
  method FreshId(devices: map<Id, DeviceRow>) returns (id: Id)
    ensures id !in devices
  {
    id := 0;
    var rest := devices.Keys;
    while rest != {}
      invariant rest <= devices.Keys
      invariant forall k :: k in devices && k !in rest ==> k < id
      decreases rest
    {
      var k :| k in rest;
      rest := rest - {k};
      if k >= id {
        id := k + 1;
      }
    }
  }

  lemma ComplaintsAppend(attempts: seq<Attempt>, i: nat)
    requires i < |attempts|
    ensures Complaints(attempts[..i + 1])
            == Complaints(attempts[..i])
               + if attempts[i].reply.Failed? then [attempts[i].name + ": " + attempts[i].reply.message] else []
  {
    assert attempts[..i + 1][..i] == attempts[..i];
  }

  /** The collector loop: the first answer is merged over the base and forgets earlier failures;
      collectors without a credential do not count as failures. */
  method Collect(
      base: Device, attempts: seq<Attempt>)
    returns (dev: Device, vms: seq<Vm>, collector: string, collectErr: string)
    requires base.kind != "" && base.os == None
    ensures dev == HostDevice(base, attempts) && collector == CollectorName(attempts)
    ensures vms == if Answer(attempts).Some? then Answer(attempts).value.reply.vms else []
    ensures collectErr == if Answer(attempts).Some? then "" else Join(Complaints(attempts))
    ensures forall i :: IsFirstGathered(attempts, i) ==>
              && IsGathered(dev, base.primaryIp, base.kind, attempts[i])
              && vms == attempts[i].reply.vms && collector == attempts[i].name && collectErr == ""
    ensures NothingGathered(attempts) ==> dev == base && vms == [] && collector == ""
  {
    dev, vms, collector := base, [], "";
    var collectErrs: seq<string> := [];
    for i := 0 to |attempts|
      invariant Answer(attempts) == Answer(attempts[i..])
      invariant dev == base && vms == [] && collector == ""
      invariant collectErrs == Complaints(attempts[..i])
    {
      assert attempts[i..][1..] == attempts[i + 1..];
      ComplaintsAppend(attempts, i);
      match attempts[i].reply {
        case NoCredential =>
        case Failed(message) => collectErrs := collectErrs + [attempts[i].name + ": " + message];
        case Gathered(device, found) =>
          dev := MergeDevice(dev, device, attempts[i].name);
          vms, collector, collectErrs := found, attempts[i].name, [];
          return dev, vms, collector, "";
      }
    }
    assert attempts[..|attempts|] == attempts;
    collectErr := Join(collectErrs);
  }

  // ---- Storing ----

  type StoreReply = Result<(Id, seq<Change>), DbError>

  /** One upsert the engine asks for. */
  datatype Call = Call(device: Device, run: string, collected: bool)

  /** What every upsert the engine asks for satisfies. */
  predicate Sendable(c: Call) {
    c.device.kind != "" && (c.device.os.Some? ==> c.collected)
  }

  predicate EngineSends(u: Upsert) {
    Sendable(Call(u.device, u.run, u.collected))
  }

  /** The upserts of a hypervisor's VMs. */
  function RelatedCalls(vms: seq<Vm>, run: string): seq<Call> {
    var related := Related(vms);
    seq(|related|, i requires 0 <= i < |related| => Call(related[i], run, true))
  }

  /** One collected upsert for each VM with a name, in order, within the scan run. */
  lemma RelatedCallsAreTheNamed(vms: seq<Vm>, run: string) returns (picks: seq<nat>)
    ensures IsPick(picks, |vms|) && |picks| == |RelatedCalls(vms, run)|
    ensures forall i :: 0 <= i < |vms| ==> (i in picks <==> vms[i].name != "")
    ensures forall k :: 0 <= k < |picks| ==>
              var c := RelatedCalls(vms, run)[k]; c.collected && c.run == run && IsVm(c.device, vms[picks[k]])
  {
    picks := RelatedAreTheNamed(vms);
  }

  ghost predicate IsUpsertOf(u: Upsert, c: Call, t: Tables) {
    u.device == c.device && u.run == c.run && u.collected == c.collected && u.newId !in t.devices
  }

  /** The store went from `t` to `after` on `c` and reported `r`. */
  ghost predicate Replies(t: Tables, c: Call, after: Tables, r: StoreReply) {
    match r
    case Ok(result) => exists u: Upsert :: IsUpsertOf(u, c, t) && Succeeds(t, u, after, result)
    case Err(_) =>
      after == t
      || exists u: Upsert, target: Option<Id> :: IsUpsertOf(u, c, t) && Commits(t, u, target, after)
  }

  /** The host's result once the store replied. */
  function Finished(begun: HostResult, r: StoreReply): HostResult {
    match r
    case Ok((id, changes)) => begun.(deviceId := Some(id), changes := |changes|)
    case Err(e) => begun.(err := Some(e))
  }

  lemma CommitKeepsRun(history: seq<Tables>, u: Upsert, target: Option<Id>, after: Tables)
    requires IsRun(history, EngineSends) && EngineSends(u)
    requires var t := history[|history| - 1]; Consistent(t) && u.newId !in t.devices && Commits(t, u, target, after)
    ensures IsRun(history + [after], EngineSends) && Consistent(after)
  {
    var t := history[|history| - 1];
    UpsertKeepsConsistent(t, u, target, after);
    assert Step(t, after, EngineSends);
    RunOneMore(history, after, EngineSends);
  }

  lemma RepliesKeepRun(history: seq<Tables>, c: Call, after: Tables, r: StoreReply)
    requires IsRun(history, EngineSends) && Consistent(history[|history| - 1]) && Sendable(c)
    requires Replies(history[|history| - 1], c, after, r)
    ensures IsRun(history + [after], EngineSends) && Consistent(after)
  {
    var t := history[|history| - 1];
    if after == t {
      RunOneMore(history, after, EngineSends);
    } else if r.Ok? {
      var u: Upsert :| IsUpsertOf(u, c, t) && Succeeds(t, u, after, r.value);
      var target: Option<Id> :| Commits(t, u, target, after);
      CommitKeepsRun(history, u, target, after);
    } else {
      var u: Upsert, target: Option<Id> :| IsUpsertOf(u, c, t) && Commits(t, u, target, after);
      CommitKeepsRun(history, u, target, after);
    }
  }

  /** Each upsert asked for took the store from one state of the history to the next. */
  ghost predicate Traced(history: seq<Tables>, sent: seq<Call>, replies: seq<StoreReply>) {
    && |history| == |sent| + 1 && |replies| == |sent|
    && forall i :: 0 <= i < |sent| ==> Replies(history[i], sent[i], history[i + 1], replies[i])
  }

  lemma TracedOneMore(
      history: seq<Tables>, sent: seq<Call>, replies: seq<StoreReply>, after: Tables, c: Call, r: StoreReply)
    requires Traced(history, sent, replies) && Replies(history[|history| - 1], c, after, r)
    ensures Traced(history + [after], sent + [c], replies + [r])
  {
    var h, ss, rs := history + [after], sent + [c], replies + [r];
    forall i | 0 <= i < |ss|
      ensures Replies(h[i], ss[i], h[i + 1], rs[i])
    {
      if i < |sent| {
        assert Replies(history[i], sent[i], history[i + 1], replies[i]);
      }
    }
  }

  /** A reply loses no device, and a successful one names a stored device. */
  lemma RepliesKeepDevices(t: Tables, c: Call, after: Tables, r: StoreReply)
    requires Replies(t, c, after, r)
    ensures t.devices.Keys <= after.devices.Keys
    ensures r.Ok? ==> r.value.0 in after.devices
  {
  }

  const HOSTS_VM := "hosts-vm"

  /** The links of a host to the devices that were stored. */
  ghost function Links(parent: Id, replies: seq<StoreReply>): set<Relationship> {
    set i | 0 <= i < |replies| && replies[i].Ok? && replies[i].value.0 != parent ::
      Relationship(parent, replies[i].value.0, HOSTS_VM)
  }

  lemma LinksOneMore(parent: Id, replies: seq<StoreReply>, r: StoreReply)
    ensures Links(parent, replies + [r])
            == Links(parent, replies)
               + if r.Ok? && r.value.0 != parent then {Relationship(parent, r.value.0, HOSTS_VM)} else {}
  {
    var longer := replies + [r];
    assert forall i :: 0 <= i < |replies| ==> longer[i] == replies[i];
    assert longer[|replies|] == r;
  }

  /** The links of `replies` were added to `before`: all of them on a healthy connection. */
  ghost predicate Linked(
      before: set<Relationship>, after: set<Relationship>, parent: Id, replies: seq<StoreReply>, healthy: bool) {
    before <= after <= before + Links(parent, replies) && (healthy ==> after == before + Links(parent, replies))
  }

  class ScanEngine {
    const store: Store
    var events: seq<ScanEvent>
    /** Every committed state of the store since it was empty, the upserts asked for in between, and what
        the store replied. */
    ghost var history: seq<Tables>
    ghost var sent: seq<Call>
    ghost var replies: seq<StoreReply>

    ghost predicate Valid()
      reads this, store
    {
      && IsRun(history, EngineSends)
      && Traced(history, sent, replies)
      && history[|history| - 1] == store.tables
      && Consistent(store.tables)
    }

    constructor (store: Store)
      requires store.tables == EMPTY_TABLES
      ensures Valid() && this.store == store && events == [] && sent == [] && replies == []
    {
      this.store, events, history, sent, replies := store, [], [EMPTY_TABLES], [], [];
    }

    /** One upsert, recorded. */
    method Send(d: Device, run: string, collected: bool, now: int) returns (r: StoreReply)
      requires Valid() && Sendable(Call(d, run, collected))
      modifies store`tables, store`budget, this`history, this`sent, this`replies
      ensures Valid() && history == old(history) + [store.tables]
      ensures sent == old(sent) + [Call(d, run, collected)] && replies == old(replies) + [r]
      ensures Replies(old(store.tables), Call(d, run, collected), store.tables, r)
      ensures old(store.budget) == None ==> store.budget == None
    {
      var newId := FreshId(store.tables.devices);
      ghost var t, c := store.tables, Call(d, run, collected);
      r := store.UpsertDevice(Upsert(d, run, collected, newId, now));
      assert IsUpsertOf(Upsert(d, run, collected, newId, now), c, t);
      RepliesKeepRun(history, c, store.tables, r);
      TracedOneMore(history, sent, replies, store.tables, c, r);
      history, sent, replies := history + [store.tables], sent + [c], replies + [r];
    }

    /** Stores one VM and links it to its host; failures are only logged. */
    method StoreOne(parent: Id, vm: Device, run: string, now: int) returns (ghost reply: StoreReply)
      requires Valid() && parent in store.tables.devices && Sendable(Call(vm, run, true))
      modifies store`tables, store`budget, store`relationships, this`history, this`sent, this`replies
      ensures Valid() && old(history) < history && parent in store.tables.devices
      ensures sent == old(sent) + [Call(vm, run, true)] && replies == old(replies) + [reply]
      ensures old(store.budget) == None ==> store.budget == None
      ensures Linked(old(store.relationships), store.relationships, parent, [reply], old(store.budget) == None)
    {
      var child := Send(vm, run, true, now);
      RepliesKeepDevices(old(store.tables), Call(vm, run, true), store.tables, child);
      reply := child;
      LinksOfOne(parent, child);
      if child.Ok? {
        var failure := store.CreateRelationship(parent, child.value.0, HOSTS_VM);
      }
    }

    /** Stores the VMs of a host and links them to it. */
    method StoreRelated(parent: Id, vms: seq<Vm>, run: string, now: int) returns (ghost added: seq<StoreReply>)
      requires Valid() && parent in store.tables.devices
      modifies store`tables, store`budget, store`relationships, this`history, this`sent, this`replies
      ensures Valid() && old(history) <= history
      ensures sent == old(sent) + RelatedCalls(vms, run) && replies == old(replies) + added
      ensures Linked(old(store.relationships), store.relationships, parent, added, old(store.budget) == None)
    {
      var related := BuildVms(vms);
      ghost var calls, asked, had, links := RelatedCalls(vms, run), sent, replies, store.relationships;
      ghost var healthy := store.budget == None;
      added := [];
      for i := 0 to |related|
        invariant Valid() && parent in store.tables.devices && old(history) <= history
        invariant sent == asked + calls[..i] && replies == had + added
        invariant healthy ==> store.budget == None
        invariant Linked(links, store.relationships, parent, added, healthy)
      {
        ghost var before := store.relationships;
        ghost var reply := StoreOne(parent, related[i], run, now);
        LinkedOneMore(links, before, store.relationships, parent, added, reply, healthy);
        AppendedCall(asked, calls, i);
        Joined(had, added, [reply]);
        added := added + [reply];
      }
      assert calls[..|related|] == calls;
    }

    /** Upserts the host's device and reports the outcome, once. */
    method Persist(
        begun: HostResult, dev: Device, run: string, now: int)
      returns (hr: HostResult, ghost reply: StoreReply)
      requires Valid() && Sendable(Call(dev, run, begun.collector != ""))
      requires begun.err.None? && begun.deviceId.None?
      modifies store`tables, store`budget, this
      ensures Valid() && old(history) < history
      ensures sent == old(sent) + [Call(dev, run, begun.collector != "")] && replies == old(replies) + [reply]
      ensures hr == Finished(begun, reply) && events == old(events) + [EventOf(hr)]
      ensures hr.deviceId.Some? ==> hr.deviceId.value in store.tables.devices
      ensures old(store.budget) == None ==> store.budget == None
    {
      var stored := Send(dev, run, begun.collector != "", now);
      RepliesKeepDevices(old(store.tables), Call(dev, run, begun.collector != ""), store.tables, stored);
      reply := stored;
      if stored.Err? {
        hr := begun.(err := Some(stored.error));
      } else {
        hr := begun.(deviceId := Some(stored.value.0), changes := |stored.value.1|);
      }
      events := events + [EventOf(hr)];
    }

    /** Collect from one host, store the result and report it once. */
    method StoreHost(run: string, addr: string, openPorts: seq<int>, attempts: seq<Attempt>, now: int)
      returns (hr: HostResult, vms: seq<Vm>, ghost reply: StoreReply)
      requires Valid() && Named(attempts)
      modifies store`tables, store`budget, this
      ensures Valid() && old(history) < history && vms == VmsOf(attempts)
      ensures hr == Finished(Begun(addr, openPorts, attempts), reply) && events == old(events) + [EventOf(hr)]
      ensures sent == old(sent) + [HostCall(run, addr, openPorts, attempts)] && replies == old(replies) + [reply]
      ensures reply.Ok? ==> reply.value.0 in store.tables.devices
      ensures old(store.budget) == None ==> store.budget == None
    {
      var deviceClass := ClassifyByPorts(openPorts);
      var base := BARE.(kind := ClassToType(deviceClass), primaryIp := addr, source := "discovery");
      var dev, found, collector, collectErr := Collect(base, attempts);
      NamedCollector(attempts);
      hr, reply := Persist(HostResult(addr, deviceClass, None, collector, 0, None, collectErr), dev, run, now);
      vms := found;
    }

    /**
     Collect from one host, store the result, report it once, then store and link its related devices.
     The one event carries the store's reply; the upserts asked for are the host's and then, when that one
     succeeded, those of its VMs, each linked to the host when it was stored.
     */
    method ProcessHost(run: string, addr: string, openPorts: seq<int>, attempts: seq<Attempt>, now: int)
      returns (hr: HostResult, ghost reply: StoreReply, ghost related: seq<StoreReply>)
      requires Valid() && Named(attempts)
      modifies store`tables, store`budget, store`relationships, this
      ensures Valid() && old(history) < history
      ensures events == old(events) + [EventOf(hr)] && hr == Finished(Begun(addr, openPorts, attempts), reply)
      ensures sent == old(sent) + HostCalls(run, addr, openPorts, attempts, reply.Ok?)
      ensures IsHostCall(sent[|old(sent)|], run, addr, openPorts, attempts)
      ensures IsHostResult(hr, addr, openPorts, attempts, reply)
      ensures reply.Err? || NothingGathered(attempts) ==> |sent| == |old(sent)| + 1
      ensures forall i :: IsFirstGathered(attempts, i) && reply.Ok? ==>
                sent[|old(sent)| + 1..] == RelatedCalls(attempts[i].reply.vms, run)
      ensures reply.Ok? && old(store.budget) == None ==>
                forall k :: 0 <= k < |related| && related[k].Ok? && related[k].value.0 != reply.value.0 ==>
                  Relationship(reply.value.0, related[k].value.0, "hosts-vm") in store.relationships
      ensures replies == old(replies) + ([reply] + related)
      ensures if reply.Ok? then
                Linked(old(store.relationships), store.relationships, reply.value.0, related, old(store.budget) == None)
              else related == [] && store.relationships == old(store.relationships)
    {
      ghost var asked, had := sent, replies;
      var vms: seq<Vm>;
      hr, vms, reply := StoreHost(run, addr, openPorts, attempts, now);
      related := [];
      ghost var calls := [];
      if hr.err.None? {
        related := StoreRelated(hr.deviceId.value, vms, run, now);
        calls := RelatedCalls(vms, run);
      }
      Joined(asked, [HostCall(run, addr, openPorts, attempts)], calls);
      Joined(had, [reply], related);
    }
  }

  lemma AppendedCall(asked: seq<Call>, calls: seq<Call>, i: nat)
    requires i < |calls|
    ensures (asked + calls[..i]) + [calls[i]] == asked + calls[..i + 1]
  {
  }

  lemma NamedCollector(attempts: seq<Attempt>)
    requires Named(attempts)
    ensures CollectorName(attempts) != "" <==> Answer(attempts).Some?
  {
  }

  lemma LinksOfOne(parent: Id, r: StoreReply)
    ensures Links(parent, [r])
            == if r.Ok? && r.value.0 != parent then {Relationship(parent, r.value.0, HOSTS_VM)} else {}
  {
    assert [] + [r] == [r];
    LinksOneMore(parent, [], r);
  }

  lemma LinkedOneMore(before: set<Relationship>, mid: set<Relationship>, after: set<Relationship>, parent: Id,
                      replies: seq<StoreReply>, r: StoreReply, healthy: bool)
    requires Linked(before, mid, parent, replies, healthy) && Linked(mid, after, parent, [r], healthy)
    ensures Linked(before, after, parent, replies + [r], healthy)
  {
    LinksOneMore(parent, replies, r);
    LinksOfOne(parent, r);
  }

  predicate Named(attempts: seq<Attempt>) {
    forall i :: 0 <= i < |attempts| ==> attempts[i].name != ""
  }

  ghost predicate IsOutcomeOf(h: Host, attempts: seq<Attempt>, r: StoreReply, hr: HostResult) {
    Named(attempts) && hr == Finished(Begun(h.addr, h.openPorts, attempts), r)
  }

  /** What processing a host may end with. */
  ghost predicate IsOutcome(h: Host, hr: HostResult) {
    exists attempts, r :: IsOutcomeOf(h, attempts, r, hr)
  }

  function VmsOf(attempts: seq<Attempt>): seq<Vm> {
    match Answer(attempts)
    case Some(a) => a.reply.vms
    case None => []
  }

  /** The upsert asked for brings what the first collector that gathered something gathered, or nothing but
      what discovery knows. */
  ghost predicate IsHostCall(c: Call, run: string, addr: string, openPorts: seq<int>, attempts: seq<Attempt>) {
    var kind := ClassToType(ClassifyByPorts(openPorts));
    && c.run == run
    && (c.collected <==> !NothingGathered(attempts))
    && (forall i :: IsFirstGathered(attempts, i) ==> IsGathered(c.device, addr, kind, attempts[i]))
    && (NothingGathered(attempts) ==> IsBare(c.device, addr, kind))
  }

  /** The result carries the store's reply, and the collector used or else what the collectors complained of. */
  ghost predicate IsHostResult(
      hr: HostResult, addr: string, openPorts: seq<int>, attempts: seq<Attempt>, reply: StoreReply) {
    && hr.addr == addr && hr.deviceClass == ClassifyByPorts(openPorts)
    && (reply.Ok? ==> hr.deviceId == Some(reply.value.0) && hr.changes == |reply.value.1| && hr.err == None)
    && (reply.Err? ==> hr.deviceId == None && hr.changes == 0 && hr.err == Some(reply.error))
    && (forall i :: IsFirstGathered(attempts, i) ==> hr.collector == attempts[i].name && hr.collectErr == "")
    && (NothingGathered(attempts) ==> hr.collector == "" && hr.collectErr == Join(Complaints(attempts)))
  }

  function HostCall(run: string, addr: string, openPorts: seq<int>, attempts: seq<Attempt>): (c: Call)
    ensures Sendable(c) && IsHostCall(c, run, addr, openPorts, attempts)
  {
    Call(HostDevice(BaseDevice(addr, openPorts), attempts), run, Answer(attempts).Some?)
  }

  /** All the upserts of one host: its own, and its VMs' when its own was stored. */
  function HostCalls(run: string, addr: string, openPorts: seq<int>, attempts: seq<Attempt>, stored: bool): seq<Call> {
    [HostCall(run, addr, openPorts, attempts)] + (if stored then RelatedCalls(VmsOf(attempts), run) else [])
  }

  /** A host's result before the store is asked. */
  function Begun(addr: string, openPorts: seq<int>, attempts: seq<Attempt>): HostResult {
    HostResult(addr, ClassifyByPorts(openPorts), None, CollectorName(attempts), 0, None,
               if Answer(attempts).Some? then "" else Join(Complaints(attempts)))
  }

  // ---- What the engine's runs satisfy ----

  /** The timeline of the device columns is faithful over every run of the engine. */
  lemma EngineTimeline(history: seq<Tables>, id: Id, i: nat, j: nat)
    requires IsRun(history, EngineSends)
    requires i < j < |history| && id !in history[i].devices && id in history[i + 1].devices
    ensures id in history[j].devices
    ensures var fields := {Hostname, PrimaryIp, Serial, DeviceType};
            var r := Replay(ScalarsOf(history[i + 1], id), EventsOf(history[j].log, id), fields);
            r.Some? && AgreeOn(fields, r.value, ScalarsOf(history[j], id))
  {
    TimelineReplays(history, EngineSends, {Hostname, PrimaryIp, Serial, DeviceType}, id, i, j);
  }

  /** Between interleaved upserts of the engine, which always send a type, the timeline of the device columns
      replays exactly when no commit about the device reports a field that moved since its snapshot. */
  lemma EngineInterleavedTimelinesIff(
      steps: seq<Transactions.Step>, worlds: seq<Transactions.World>, id: Id, i: nat, j: nat)
    requires Transactions.IsInterleaving(steps, worlds) && i < j <= |steps|
    requires id !in worlds[i].db.devices && id in worlds[i + 1].db.devices
    requires forall b :: 0 <= b < |steps| && steps[b].Begin? ==> EngineSends(steps[b].u)
    ensures Transactions.AlwaysExplained(worlds, Transactions.RowScalars(worlds[i + 1].db.devices[id]), id, i + 1, j)
            <==> forall m :: i < m < j ==> Transactions.CommitUnmoved(worlds[m], steps[m], id)
  {
    Transactions.TypedTimelinesIff(steps, worlds, id, i, j);
  }

  /** Every OS event the engine causes has its new value in os_info by the same commit. */
  lemma EngineOsEventsAreStored(t: Tables, u: Upsert, id: Id, after: Tables, e: Change)
    requires EngineSends(u) && Commits(t, u, Some(id), after)
    requires e in ChangesOf(t, u.device, Some(id)) && (e.field == OsName || e.field == OsVersion)
    ensures id in after.os
    ensures Some(e.after) == if e.field == OsName then after.os[id].name else after.os[id].version
  {
    OsChangesAreReported(ScalarsOf(t, id), u.device, e);
    OsEventsAreStored(t, u, id, after, e);
  }

  /** A VM's upsert counts as collected but brings no children, so it clears those an earlier scan of
      the VM itself had stored; its OS stays. */
  lemma RelatedClearsChildren(t: Tables, u: Upsert, id: Id, after: Tables, vm: Vm)
    requires u.device == VmDevice(vm) && u.collected && Lands(t, u, Some(id), after)
    ensures RowsOf(after.interfaces, id) == [] && RowsOf(after.software, id) == [] && RowsOf(after.users, id) == []
    ensures after.os == t.os
  {
  }

  /** A host scanned on its own, with one interface. */
  const SCANNED := EMPTY_TABLES.(
    devices := map[0 := DeviceRow("linux", Some("vm1"), None, None, None, None, None, 0, 0, 0)],
    interfaces := map[0 := [InterfaceRow(Some("eth0"), None, None, None, None)]])

  /** An instance: its hypervisor lists a VM of that name, and the interface is gone. */
  lemma RelatedClearsExample()
    ensures var u := Upsert(VmDevice(Vm("vm1", 0, 0)), "", true, 1, 1);
            && EngineSends(u) && Consistent(SCANNED) && RowsOf(SCANNED.interfaces, 0) != []
            && WriteFailure(SCANNED, u, Some(0)) == None
            && var after := Upserted(SCANNED, u, Some(0));
            && Commits(SCANNED, u, Some(0), after) && RowsOf(after.interfaces, 0) == []
  {
    var vm := Vm("vm1", 0, 0);
    var u := Upsert(VmDevice(vm), "", true, 1, 1);
    assert MacsOf(u.device.interfaces) == [];
    assert 0 in Candidates(SCANNED, u.device, 3);
    assert ResolvesAt(SCANNED, u.device, 3, Some(0));
    RelatedClearsChildren(SCANNED, u, 0, Upserted(SCANNED, u, Some(0)), vm);
  }

  // ---- Accounting ----

  datatype Summary = Summary(discovered: nat, collected: nat, persisted: nat, hosts: seq<HostResult>)

  predicate CountsAsCollected(hr: HostResult) {
    hr.collector != "" && hr.err.None?
  }

  function CountResults(rs: seq<HostResult>, p: HostResult -> bool): nat {
    if rs == [] then 0 else CountResults(rs[..|rs| - 1], p) + (if p(rs[|rs| - 1]) then 1 else 0)
  }

  lemma CountNext(rs: seq<HostResult>, i: nat, p: HostResult -> bool)
    requires i < |rs|
    ensures CountResults(rs[..i + 1], p) == CountResults(rs[..i], p) + if p(rs[i]) then 1 else 0
  {
    assert rs[..i + 1][..i] == rs[..i];
  }

  method Summarize(results: seq<HostResult>) returns (sum: Summary)
    ensures sum.hosts == results && sum.discovered == |results|
    ensures sum.collected == CountResults(results, CountsAsCollected)
    ensures sum.persisted == CountResults(results, IsStored)
  {
    sum := Summary(|results|, 0, 0, []);
    for i := 0 to |results|
      invariant sum.discovered == |results| && sum.hosts == results[..i]
      invariant sum.collected == CountResults(results[..i], CountsAsCollected)
      invariant sum.persisted == CountResults(results[..i], IsStored)
    {
      var hr := results[i];
      CountNext(results, i, CountsAsCollected);
      CountNext(results, i, IsStored);
      sum := sum.(hosts := sum.hosts + [hr],
                  collected := if hr.collector != "" && hr.err.None? then sum.collected + 1 else sum.collected,
                  persisted := if hr.deviceId.Some? then sum.persisted + 1 else sum.persisted);
    }
    assert results[..|results|] == results;
  }

  lemma {:induction false} CountImplied(rs: seq<HostResult>, p: HostResult -> bool, q: HostResult -> bool)
    requires forall hr :: hr in rs && p(hr) ==> q(hr)
    ensures CountResults(rs, p) <= CountResults(rs, q) <= |rs|
  {
    if rs != [] {
      CountImplied(rs[..|rs| - 1], p, q);
    }
  }

  lemma {:induction false} CountNone(rs: seq<HostResult>, p: HostResult -> bool)
    requires forall hr :: hr in rs ==> !p(hr)
    ensures CountResults(rs, p) == 0
  {
    if rs != [] {
      CountNone(rs[..|rs| - 1], p);
    }
  }

  lemma {:induction false} CountConcat(a: seq<HostResult>, b: seq<HostResult>, p: HostResult -> bool)
    ensures CountResults(a + b, p) == CountResults(a, p) + CountResults(b, p)
  {
    if b == [] {
      assert a + b == a;
    } else {
      CountConcat(a, b[..|b| - 1], p);
      assert (a + b)[..|a + b| - 1] == a + b[..|b| - 1];
    }
  }

  function Values(slots: seq<Option<HostResult>>): seq<HostResult>
    requires forall j :: 0 <= j < |slots| ==> slots[j].Some?
  {
    seq(|slots|, j requires 0 <= j < |slots| => slots[j].value)
  }

  /** Job i processes host i. */
  ghost predicate JobsAreHosts(hosts: seq<Host>, steps: seq<WorkerPool.Step<HostResult>>) {
    forall k :: 0 <= k < |steps| && steps[k].Return? ==>
      steps[k].worker < |hosts| && IsOutcome(hosts[steps[k].worker], steps[k].result)
  }

  /** On every schedule what worker `j` recorded is an outcome of processing host `j`. */
  lemma {:induction false} OutcomesAreHosts(
      hosts: seq<Host>, c: WorkerPool.Call<HostResult>, steps: seq<WorkerPool.Step<HostResult>>,
      states: seq<WorkerPool.State<HostResult>>, i: nat, j: nat)
    requires c.IsRun(steps, states) && JobsAreHosts(hosts, steps) && i <= |steps| && j < c.jobs == |hosts|
    ensures c.Shaped(states[i]) && (states[i].returned[j].Some? ==> IsOutcome(hosts[j], states[i].returned[j].value))
  {
    WorkerPool.RunInv(c, steps, states, i);
    if i > 0 {
      OutcomesAreHosts(hosts, c, steps, states, i - 1, j);
      assert states[i] == c.Apply(states[i - 1], steps[i - 1]);
    }
  }

  /** A processed host is stored or failed, never both, and its result carries its address. */
  lemma OutcomeSettles(h: Host, hr: HostResult)
    requires IsOutcome(h, hr)
    ensures Settled(hr) && hr.addr == h.addr
  {
    var attempts, r :| IsOutcomeOf(h, attempts, r, hr);
  }

  /** The outcomes below `n` are `values` and there are no others. */
  lemma {:induction false} OutcomesAreValues(
      outcomes: seq<Option<HostResult>>, values: seq<HostResult>, p: HostResult -> bool)
    requires |values| <= |outcomes|
    requires forall j :: 0 <= j < |values| ==> outcomes[j] == Some(values[j])
    requires forall j :: |values| <= j < |outcomes| ==> outcomes[j] == None
    ensures WorkerPool.CountOutcomes(outcomes, p) == CountResults(values, p)
  {
    if |outcomes| > |values| {
      OutcomesAreValues(outcomes[..|outcomes| - 1], values, p);
    } else if values != [] {
      OutcomesAreValues(outcomes[..|outcomes| - 1], values[..|values| - 1], p);
    }
  }

  /** Hosts that were never started count for nothing. */
  lemma CutCountsNothing(processed: seq<HostResult>, cut: seq<HostResult>, p: HostResult -> bool)
    requires !p(NO_RESULT) && forall j :: 0 <= j < |cut| ==> cut[j] == NO_RESULT
    ensures CountResults(processed + cut, p) == CountResults(processed, p)
  {
    CountConcat(processed, cut, p);
    CountNone(cut, p);
  }

  predicate IsStored(hr: HostResult) {
    hr.deviceId.Some?
  }

  predicate ReportedCollected(hr: HostResult) {
    EventOf(hr).status == Collected
  }

  predicate Any(hr: HostResult) {
    true
  }

  lemma {:induction false} CountAny(rs: seq<HostResult>)
    ensures CountResults(rs, Any) == |rs|
  {
    if rs != [] {
      CountAny(rs[..|rs| - 1]);
    }
  }

  /** The state in which the pool has returned: `launched` hosts were processed, the others cut. */
  ghost predicate IsReturned(
      hosts: seq<Host>, c: WorkerPool.Call<HostResult>, steps: seq<WorkerPool.Step<HostResult>>,
      states: seq<WorkerPool.State<HostResult>>, i: nat) {
    && c.IsRun(steps, states) && JobsAreHosts(hosts, steps)
    && c.jobs == |hosts| && c.ctxErr == NO_RESULT
    && i <= |steps| && states[i].parent == WorkerPool.Done
  }

  /** Every launched host's slot is an outcome of that host, every other slot the zero result. */
  lemma SlotsAreOutcomes(
      hosts: seq<Host>, c: WorkerPool.Call<HostResult>, steps: seq<WorkerPool.Step<HostResult>>,
      states: seq<WorkerPool.State<HostResult>>, i: nat)
    requires IsReturned(hosts, c, steps, states, i)
    ensures |states[i].slots| == |hosts| && states[i].launched <= |hosts|
    ensures forall j :: 0 <= j < |hosts| ==> states[i].slots[j].Some?
    ensures forall j :: 0 <= j < states[i].launched ==> IsOutcome(hosts[j], states[i].slots[j].value)
    ensures forall j :: states[i].launched <= j < |hosts| ==> states[i].slots[j].value == NO_RESULT
  {
    WorkerPool.ReturnsCleanCut(c, steps, states, i);
    forall j | 0 <= j < states[i].launched
      ensures IsOutcome(hosts[j], states[i].slots[j].value)
    {
      OutcomesAreHosts(hosts, c, steps, states, i, j);
    }
  }

  /** The returns of jobs, one event each, are the launched hosts' results. */
  lemma ReturnsAreResults(
      hosts: seq<Host>, c: WorkerPool.Call<HostResult>, steps: seq<WorkerPool.Step<HostResult>>,
      states: seq<WorkerPool.State<HostResult>>, i: nat, p: HostResult -> bool)
    requires IsReturned(hosts, c, steps, states, i)
    ensures |states[i].slots| == |hosts| && states[i].launched <= |hosts|
    ensures forall j :: 0 <= j < |hosts| ==> states[i].slots[j].Some?
    ensures WorkerPool.CountReturns(steps[..i], p) == CountResults(Values(states[i].slots)[..states[i].launched], p)
  {
    WorkerPool.ReturnsCleanCut(c, steps, states, i);
    WorkerPool.ReturnsAreOutcomes(c, steps, states, p, i);
    OutcomesAreValues(states[i].returned, Values(states[i].slots)[..states[i].launched], p);
  }

  lemma CollectedIsReported(hosts: seq<Host>, processed: seq<HostResult>)
    requires |processed| <= |hosts| && forall j :: 0 <= j < |processed| ==> IsOutcome(hosts[j], processed[j])
    ensures CountResults(processed, CountsAsCollected) == CountResults(processed, ReportedCollected)
    ensures CountResults(processed, CountsAsCollected) <= CountResults(processed, IsStored) <= |processed|
  {
    forall hr | hr in processed
      ensures Settled(hr)
    {
      var j :| 0 <= j < |processed| && processed[j] == hr;
      OutcomeSettles(hosts[j], hr);
    }
    CountImplied(processed, CountsAsCollected, IsStored);
    CountImplied(processed, CountsAsCollected, ReportedCollected);
    CountImplied(processed, ReportedCollected, CountsAsCollected);
  }

  /**
   The accounting of a scan, on every schedule of the pool and with or without cancellation.  Each
   launched host returns once and so reports one event, and the hosts cut off none; the collected count of
   the summary is the number of returns whose event says "collected"; and
   collected <= persisted <= launched <= discovered.
   */
  lemma ScanAccounting(
      hosts: seq<Host>, c: WorkerPool.Call<HostResult>, steps: seq<WorkerPool.Step<HostResult>>,
      states: seq<WorkerPool.State<HostResult>>, i: nat)
    requires IsReturned(hosts, c, steps, states, i)
    ensures |states[i].slots| == |hosts| && forall j :: 0 <= j < |hosts| ==> states[i].slots[j].Some?
    ensures WorkerPool.CountReturns(steps[..i], Any) == states[i].launched <= |hosts|
    ensures !states[i].cancelled ==> states[i].launched == |hosts|
    ensures var all := Values(states[i].slots);
            && CountResults(all, CountsAsCollected) == WorkerPool.CountReturns(steps[..i], ReportedCollected)
            && CountResults(all, IsStored) == WorkerPool.CountReturns(steps[..i], IsStored)
            && CountResults(all, CountsAsCollected) <= CountResults(all, IsStored) <= states[i].launched
  {
    WorkerPool.ReturnsCleanCut(c, steps, states, i);
    SlotsAreOutcomes(hosts, c, steps, states, i);
    var all := Values(states[i].slots);
    var processed, cut := all[..states[i].launched], all[states[i].launched..];
    assert all == processed + cut;
    CutCountsNothing(processed, cut, CountsAsCollected);
    CutCountsNothing(processed, cut, IsStored);
    CountAny(processed);
    ReturnsAreResults(hosts, c, steps, states, i, Any);
    ReturnsAreResults(hosts, c, steps, states, i, ReportedCollected);
    ReturnsAreResults(hosts, c, steps, states, i, IsStored);
    CollectedIsReported(hosts, processed);
  }
}
