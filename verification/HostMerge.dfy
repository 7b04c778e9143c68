/** The union of the TCP sweep's hosts with the probe's, keyed by address. */
module HostMerge {
  import opened Sequences
  import opened Fingerprint

  /** `addr` is the address's canonical text, which the merge uses as its key. */
  datatype Host = Host(addr: string, openPorts: seq<int>)

  function Addrs(hosts: seq<Host>): seq<string> {
    seq(|hosts|, i requires 0 <= i < |hosts| => hosts[i].addr)
  }

  /** `ports` with each of `more` appended that is not yet there. */
  function AddMissing(ports: seq<int>, more: seq<int>): (r: seq<int>)
    ensures forall p :: p in r <==> p in ports || p in more
  {
    if more == [] then ports
    else
      var r := AddMissing(ports, more[..|more| - 1]);
      var p := more[|more| - 1];
      if p in r then r else r + [p]
  }

  /** The ports collected for address `k`: the first host's list, then every port new to it. */
  function PortsOf(hosts: seq<Host>, k: string): seq<int> {
    if hosts == [] then []
    else
      var init, h := hosts[..|hosts| - 1], hosts[|hosts| - 1];
      if h.addr != k then PortsOf(init, k)
      else if k in Addrs(init) then AddMissing(PortsOf(init, k), h.openPorts)
      else h.openPorts
  }

  lemma {:induction false} NoPortsWithoutHost(hosts: seq<Host>, k: string)
    requires k !in Addrs(hosts)
    ensures PortsOf(hosts, k) == []
  {
    if hosts != [] {
      var init := hosts[..|hosts| - 1];
      assert forall i :: 0 <= i < |init| ==> Addrs(init)[i] == Addrs(hosts)[i];
      assert hosts[|hosts| - 1].addr == Addrs(hosts)[|hosts| - 1];
      NoPortsWithoutHost(init, k);
    }
  }

  /** A merged host has exactly the ports some host of its address had. */
  lemma {:induction false} PortsAreTheUnion(hosts: seq<Host>, k: string, p: int)
    ensures p in PortsOf(hosts, k) <==> exists i :: 0 <= i < |hosts| && hosts[i].addr == k && p in hosts[i].openPorts
  {
    if hosts != [] {
      var init, h := hosts[..|hosts| - 1], hosts[|hosts| - 1];
      PortsAreTheUnion(init, k, p);
      if k !in Addrs(init) {
        NoPortsWithoutHost(init, k);
      }
      assert (exists i :: 0 <= i < |hosts| && hosts[i].addr == k && p in hosts[i].openPorts) <==>
             ((h.addr == k && p in h.openPorts)
              || exists i :: 0 <= i < |init| && init[i].addr == k && p in init[i].openPorts)
      by {
        assert forall i :: 0 <= i < |init| ==> init[i] == hosts[i];
        assert hosts[|hosts| - 1] == h;
      }
    }
  }

  /** The map of pointers and the insertion order that the merge fills in. */
  class HostTable {
    var byAddr: map<string, seq<int>>
    var order: seq<string>
    ghost var seen: seq<Host>

    ghost predicate Valid()
      reads this
    {
      && order == Distinct(Addrs(seen))
      && (forall k :: k in byAddr <==> k in order)
      && forall k :: k in byAddr ==> byAddr[k] == PortsOf(seen, k)
    }

    constructor ()
      ensures Valid() && seen == []
    {
      byAddr, order, seen := map[], [], [];
    }

    /** The inner loop: every port that is new is appended. */
    method AddPorts(ports: seq<int>, more: seq<int>) returns (cur: seq<int>)
      ensures cur == AddMissing(ports, more)
    {
      cur := ports;
      for i := 0 to |more|
        invariant cur == AddMissing(ports, more[..i])
      {
        assert more[..i + 1][..i] == more[..i];
        if more[i] !in cur {
          cur := cur + [more[i]];
        }
      }
      assert more[..|more|] == more;
    }

    method Add(h: Host)
      requires Valid()
      modifies this
      ensures Valid() && seen == old(seen) + [h]
    {
      ghost var next := seen + [h];
      OneMoreHost(seen, h);
      DistinctAppendOne(Addrs(seen), h.addr);
      if h.addr in byAddr {
        var cur := AddPorts(byAddr[h.addr], h.openPorts);
        byAddr := byAddr[h.addr := cur];
      } else {
        byAddr := byAddr[h.addr := h.openPorts];
        order := order + [h.addr];
      }
      seen := next;
    }

    method AddAll(hosts: seq<Host>)
      requires Valid()
      modifies this
      ensures Valid() && seen == old(seen) + hosts
    {
      for i := 0 to |hosts|
        invariant Valid() && seen == old(seen) + hosts[..i]
      {
        Add(hosts[i]);
      }
    }

    method Rows() returns (out: seq<Host>)
      requires Valid()
      ensures out == Merged(seen)
    {
      out := [];
      for i := 0 to |order|
        invariant |out| == i && forall k :: 0 <= k < i ==> out[k] == Host(order[k], byAddr[order[k]])
      {
        out := out + [Host(order[i], byAddr[order[i]])];
      }
    }
  }

  lemma OneMoreHost(hosts: seq<Host>, h: Host)
    ensures Addrs(hosts + [h]) == Addrs(hosts) + [h.addr]
    ensures forall k :: PortsOf(hosts + [h], k) ==
              if h.addr != k then PortsOf(hosts, k)
              else if k in Addrs(hosts) then AddMissing(PortsOf(hosts, k), h.openPorts)
              else h.openPorts
  {
    assert (hosts + [h])[..|hosts|] == hosts;
  }

  /** One host per distinct address, in order of first occurrence, with the address's ports. */
  function Merged(hosts: seq<Host>): seq<Host> {
    var addrs := Distinct(Addrs(hosts));
    seq(|addrs|, i requires 0 <= i < |addrs| => Host(addrs[i], PortsOf(hosts, addrs[i])))
  }

  method MergeHosts(primary: seq<Host>, extra: seq<Host>) returns (out: seq<Host>)
    ensures out == Merged(primary + extra)
  {
    var table := new HostTable();
    table.AddAll(primary);
    table.AddAll(extra);
    assert table.seen == primary + extra;
    out := table.Rows();
  }

  /** Every address comes out once, in order of first occurrence. */
  lemma MergedAddresses(hosts: seq<Host>)
    ensures Addrs(Merged(hosts)) == Distinct(Addrs(hosts))
    ensures NoDuplicates(Addrs(Merged(hosts)))
  {
    DistinctIsFirstOccurrences(Addrs(hosts));
  }

  /** Classification commutes with the merge: the rule a merged host is classified by is the least of
      its parts' rules, and one of the parts has it. */
  lemma MergedRuleIsTheLeast(hosts: seq<Host>, k: string)
    requires k in Addrs(hosts)
    ensures forall i :: 0 <= i < |hosts| && hosts[i].addr == k ==>
            RuleIndex(PortsOf(hosts, k)) <= RuleIndex(hosts[i].openPorts)
    ensures exists i ::
              0 <= i < |hosts| && hosts[i].addr == k && RuleIndex(PortsOf(hosts, k)) == RuleIndex(hosts[i].openPorts)
  {
    var merged := PortsOf(hosts, k);
    var rule := RuleIndex(merged);
    ClassificationIsFirstRule(merged);
    forall i | 0 <= i < |hosts| && hosts[i].addr == k
      ensures rule <= RuleIndex(hosts[i].openPorts)
    {
      PartSelectsLater(hosts, k, i);
    }
    if rule < |RULES| {
      var p :| p in RULES[rule] && p in PortSet(merged);
      PortsAreTheUnion(hosts, k, p);
      var i :| 0 <= i < |hosts| && hosts[i].addr == k && p in hosts[i].openPorts;
      ClassificationIsFirstRule(hosts[i].openPorts);
      assert p in PortSet(hosts[i].openPorts);
      assert Selects(rule, PortSet(hosts[i].openPorts));
      assert RuleIndex(hosts[i].openPorts) <= rule;
      assert rule <= RuleIndex(hosts[i].openPorts);
    } else {
      var i :| 0 <= i < |hosts| && Addrs(hosts)[i] == k;
      assert hosts[i].addr == k;
    }
  }

  lemma PartSelectsLater(hosts: seq<Host>, k: string, i: nat)
    requires i < |hosts| && hosts[i].addr == k
    ensures RuleIndex(PortsOf(hosts, k)) <= RuleIndex(hosts[i].openPorts)
  {
    var part := hosts[i].openPorts;
    ClassificationIsFirstRule(part);
    ClassificationIsFirstRule(PortsOf(hosts, k));
    if RuleIndex(part) < |RULES| {
      var p :| p in RULES[RuleIndex(part)] && p in PortSet(part);
      PortsAreTheUnion(hosts, k, p);
      assert p in PortSet(PortsOf(hosts, k));
      assert Selects(RuleIndex(part), PortSet(PortsOf(hosts, k)));
    }
  }
}
