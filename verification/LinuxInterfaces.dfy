/**
 Interfaces from `ip -o link show`, and their addresses from `ip -o addr show`, assigned in place.
 A line is the list of its whitespace-separated fields.
 */
module LinuxInterfaces {
  import opened Wrappers
  import opened Sequences

  /** `ip` is the canonical address text. */
  datatype Iface = Iface(name: string, mac: string, ip: Option<string>)

  // ---- Interface tokens ----

  function TrimColon(f: string): string {
    if f != "" && f[|f| - 1] == ':' then f[..|f| - 1] else f
  }

  /** What precedes the first '@'. */
  function BeforeAt(f: string): (r: string)
    ensures '@' !in r && r <= f && (r == f || f[|r|] == '@')
  {
    if f == "" || f[0] == '@' then "" else [f[0]] + BeforeAt(f[1..])
  }

  function NormalizeIfName(f: string): string {
    BeforeAt(TrimColon(f))
  }

  /** How the tools print an interface: link lines end in a colon, virtual ones name their peer. */
  function Token(name: string, peer: Option<string>, colon: bool): string {
    name + (if peer.Some? then "@" + peer.value else "") + (if colon then ":" else "")
  }

  lemma {:induction false} BeforeAtIs(name: string, rest: string)
    requires '@' !in name && (rest == "" || rest[0] == '@')
    ensures BeforeAt(name + rest) == name
  {
    if name == "" {
      assert name + rest == rest;
    } else {
      BeforeAtIs(name[1..], rest);
      assert (name + rest)[1..] == name[1..] + rest;
      assert name == [name[0]] + name[1..];
    }
  }

  /** Link and address lines lead to the same name, whatever peer and colon they print. */
  lemma TokenNamesInterface(name: string, peer: Option<string>, colon: bool)
    requires '@' !in name && ':' !in name && (peer.Some? ==> ':' !in peer.value)
    ensures NormalizeIfName(Token(name, peer, colon)) == name
  {
    var rest := if peer.Some? then "@" + peer.value else "";
    var f := Token(name, peer, colon);
    if colon {
      assert f[..|f| - 1] == name + rest;
    } else {
      assert f == name + rest;
      assert ':' !in f;
      assert f != "" ==> f[|f| - 1] in f;
    }
    assert TrimColon(f) == name + rest;
    BeforeAtIs(name, rest);
  }

  // ---- Fields ----

  function NameOf(fields: seq<string>): string {
    if |fields| > 1 then NormalizeIfName(fields[1]) else ""
  }

  /** The field after the last keyword that has one after it. */
  function LastAfter(fields: seq<string>, keywords: set<string>): string {
    if |fields| < 2 then ""
    else if fields[|fields| - 2] in keywords then fields[|fields| - 1]
    else LastAfter(fields[..|fields| - 1], keywords)
  }

  lemma {:induction false} LastAfterIs(fields: seq<string>, keywords: set<string>, k: nat)
    requires k + 1 < |fields| && fields[k] in keywords
    requires forall i :: k < i < |fields| - 1 ==> fields[i] !in keywords
    ensures LastAfter(fields, keywords) == fields[k + 1]
  {
    if k + 2 < |fields| {
      LastAfterIs(fields[..|fields| - 1], keywords, k);
    }
  }

  /** The field loop: the second field names the interface, the last value of a keyword counts. */
  method ScanFields(fields: seq<string>, keywords: set<string>) returns (name: string, value: string)
    ensures name == NameOf(fields) && value == LastAfter(fields, keywords)
  {
    name, value := "", "";
    for i := 0 to |fields|
      invariant name == if i > 1 then NormalizeIfName(fields[1]) else ""
      invariant value == LastAfter(fields[..if i < |fields| then i + 1 else i], keywords)
    {
      if i == 1 {
        name := NormalizeIfName(fields[i]);
      }
      if i + 1 < |fields| {
        assert fields[..i + 2][..i + 1] == fields[..i + 1];
        if fields[i] in keywords {
          value := fields[i + 1];
        }
      }
    }
    assert fields[..|fields|] == fields;
  }

  lemma {:induction false} NoKeyword(fields: seq<string>, keywords: set<string>)
    requires forall i :: 0 <= i < |fields| - 1 ==> fields[i] !in keywords
    ensures LastAfter(fields, keywords) == ""
  {
    if |fields| >= 2 {
      NoKeyword(fields[..|fields| - 1], keywords);
    }
  }

  // ---- Links ----

  const ETHER := {"link/ether"}
  const INET := {"inet", "inet6"}

  function LinkOf(fields: seq<string>): Option<Iface> {
    var name, mac := NameOf(fields), LastAfter(fields, ETHER);
    if name == "" || name == "lo" || mac == "" then None else Some(Iface(name, mac, None))
  }

  function LinksOf(lines: seq<seq<string>>): seq<Iface> {
    Somes(LinkOf, lines)
  }

  method ParseIPLink(lines: seq<seq<string>>) returns (ifaces: seq<Iface>)
    ensures ifaces == LinksOf(lines)
  {
    ifaces := [];
    for n := 0 to |lines|
      invariant ifaces == LinksOf(lines[..n])
    {
      assert lines[..n + 1][..n] == lines[..n];
      var name, mac := ScanFields(lines[n], ETHER);
      if name == "" || name == "lo" || mac == "" {
        continue;
      }
      ifaces := ifaces + [Iface(name, mac, None)];
    }
    assert lines[..|lines|] == lines;
  }

  /** A printed link line gives its interface back, unless it is the loopback. */
  lemma LinkRoundTrip(fields: seq<string>, name: string, peer: Option<string>, mac: string, k: nat)
    requires name != "" && '@' !in name && ':' !in name && (peer.Some? ==> ':' !in peer.value) && mac != ""
    requires 1 < k && k + 1 < |fields| && fields[1] == Token(name, peer, true)
    requires fields[k] == "link/ether" && fields[k + 1] == mac && forall i :: k < i < |fields| - 1 ==>
            fields[i] != "link/ether"
    ensures LinkOf(fields) == if name == "lo" then None else Some(Iface(name, mac, None))
  {
    TokenNamesInterface(name, peer, true);
    LastAfterIs(fields, ETHER, k);
  }

  /** A line that is not about an Ethernet link names no interface. */
  lemma OtherLinesAreNoLinks(fields: seq<string>)
    requires |fields| < 2 || forall i :: 0 <= i < |fields| - 1 ==> fields[i] != "link/ether"
    ensures LinkOf(fields) == None
  {
    NoKeyword(fields, ETHER);
  }

  /** The interfaces are those of the lines that name one, each once and in order. */
  lemma LinksArePicked(lines: seq<seq<string>>) returns (picks: seq<nat>)
    ensures IsPick(picks, |lines|) && |picks| == |LinksOf(lines)|
    ensures forall n :: 0 <= n < |lines| ==> (n in picks <==> LinkOf(lines[n]).Some?)
    ensures forall k :: 0 <= k < |picks| ==> LinkOf(lines[picks[k]]) == Some(LinksOf(lines)[k])
  {
    picks := SomesArePicked(LinkOf, lines);
  }

  // ---- Addresses ----

  /** The address a line brings to interface `name`; `parse` reads a prefix and returns its address. */
  function AddressIn(fields: seq<string>, name: string, parse: string -> Option<string>): Option<string> {
    var cidr := LastAfter(fields, INET);
    if NameOf(fields) == name && cidr != "" then parse(cidr) else None
  }

  /** A printed address line of either family brings its address to the interface it names, and to no other. */
  lemma AddressRoundTrip(
      fields: seq<string>, name: string, peer: Option<string>, cidr: string, k: nat, other: string,
      parse: string -> Option<string>)
    requires '@' !in name && ':' !in name && (peer.Some? ==> ':' !in peer.value) && cidr != ""
    requires 1 < k && k + 1 < |fields| && fields[1] == Token(name, peer, false)
    requires (fields[k] == "inet" || fields[k] == "inet6") && fields[k + 1] == cidr
    requires forall i :: k < i < |fields| - 1 ==> fields[i] != "inet" && fields[i] != "inet6"
    ensures AddressIn(fields, other, parse) == if other == name then parse(cidr) else None
  {
    TokenNamesInterface(name, peer, false);
    LastAfterIs(fields, INET, k);
  }

  /** A line that names no interface, or is not about an address, brings none. */
  lemma OtherLinesBringNothing(fields: seq<string>, name: string, parse: string -> Option<string>)
    requires |fields| < 2 || forall i :: 0 <= i < |fields| - 1 ==> fields[i] != "inet" && fields[i] != "inet6"
    ensures AddressIn(fields, name, parse) == None
  {
    NoKeyword(fields, INET);
  }

  function FirstAddress(lines: seq<seq<string>>, name: string, parse: string -> Option<string>): Option<string> {
    if lines == [] then None
    else
      var earlier := FirstAddress(lines[..|lines| - 1], name, parse);
      if earlier.Some? then earlier else AddressIn(lines[|lines| - 1], name, parse)
  }

  /** FirstAddress is the address of the first line that brings one. */
  lemma {:induction false} FirstAddressIsFirst(
      lines: seq<seq<string>>, name: string, parse: string -> Option<string>, n: nat)
    requires n < |lines| && AddressIn(lines[n], name, parse).Some?
    requires forall m :: 0 <= m < n ==> AddressIn(lines[m], name, parse) == None
    ensures FirstAddress(lines, name, parse) == AddressIn(lines[n], name, parse)
  {
    if n + 1 < |lines| {
      FirstAddressIsFirst(lines[..|lines| - 1], name, parse, n);
    } else {
      NoAddress(lines[..n], name, parse);
    }
  }

  lemma {:induction false} NoAddress(lines: seq<seq<string>>, name: string, parse: string -> Option<string>)
    requires forall m :: 0 <= m < |lines| ==> AddressIn(lines[m], name, parse) == None
    ensures FirstAddress(lines, name, parse) == None
  {
    if lines != [] {
      NoAddress(lines[..|lines| - 1], name, parse);
    }
  }

  /** The map from names keeps the last interface of a name; only that one is given an address. */
  ghost predicate IsLastOfName(ifaces: seq<Iface>, i: nat)
    requires i < |ifaces|
  {
    forall j :: i < j < |ifaces| ==> ifaces[j].name != ifaces[i].name
  }

  /** The address of interface `i` after the lines. */
  ghost function Assigned(
      before: seq<Iface>, i: nat, lines: seq<seq<string>>, parse: string -> Option<string>): Option<string>
    requires i < |before|
  {
    if before[i].ip.Some? || !IsLastOfName(before, i) then before[i].ip else FirstAddress(lines, before[i].name, parse)
  }

  /** What the lines make of interface `i`: a line that brings its name an address after others did does not
      matter. */
  lemma AssignedIs(before: seq<Iface>, i: nat, lines: seq<seq<string>>, parse: string -> Option<string>)
    requires i < |before|
    ensures before[i].ip.Some? ==> Assigned(before, i, lines, parse) == before[i].ip
    ensures (exists j :: i < j < |before| && before[j].name == before[i].name) ==>
              Assigned(before, i, lines, parse) == before[i].ip
    ensures before[i].ip == None && (forall j :: i < j < |before| ==> before[j].name != before[i].name) ==>
              && (forall n :: 0 <= n < |lines| && BringsFirst(lines, n, before[i].name, parse) ==>
                    Assigned(before, i, lines, parse) == AddressIn(lines[n], before[i].name, parse))
              && ((forall n :: 0 <= n < |lines| ==> AddressIn(lines[n], before[i].name, parse) == None) ==>
                    Assigned(before, i, lines, parse) == None)
  {
    forall n | 0 <= n < |lines| && BringsFirst(lines, n, before[i].name, parse)
      ensures FirstAddress(lines, before[i].name, parse) == AddressIn(lines[n], before[i].name, parse)
    {
      FirstAddressIsFirst(lines, before[i].name, parse, n);
    }
    if forall n :: 0 <= n < |lines| ==> AddressIn(lines[n], before[i].name, parse) == None {
      NoAddress(lines, before[i].name, parse);
    }
  }

  /** Line `n` is the first that brings the name an address. */
  ghost predicate BringsFirst(lines: seq<seq<string>>, n: nat, name: string, parse: string -> Option<string>)
    requires n < |lines|
  {
    AddressIn(lines[n], name, parse).Some? && forall m :: 0 <= m < n ==> AddressIn(lines[m], name, parse) == None
  }

  /** Each name in use, with the last interface of that name. */
  ghost predicate NamesLast(byName: map<string, nat>, ifaces: seq<Iface>) {
    forall i :: 0 <= i < |ifaces| ==>
      ifaces[i].name in byName && byName[ifaces[i].name] < |ifaces|
          && (byName[ifaces[i].name] == i <==> IsLastOfName(ifaces, i))
  }

  ghost predicate OnlyNames(byName: map<string, nat>, ifaces: seq<Iface>) {
    forall k :: k in byName ==> byName[k] < |ifaces| && ifaces[byName[k]].name == k
  }

  lemma NameOneMore(byName: map<string, nat>, ifaces: seq<Iface>, one: Iface)
    requires NamesLast(byName, ifaces) && OnlyNames(byName, ifaces)
    ensures NamesLast(byName[one.name := |ifaces|], ifaces + [one])
            && OnlyNames(byName[one.name := |ifaces|], ifaces + [one])
  {
    var longer := ifaces + [one];
    forall i | 0 <= i < |ifaces|
      ensures IsLastOfName(longer, i) <==> IsLastOfName(ifaces, i) && one.name != ifaces[i].name
    {
      assert longer[|ifaces|] == one;
      assert forall j :: 0 <= j < |ifaces| ==> longer[j] == ifaces[j];
      if IsLastOfName(longer, i) {
        forall j | i < j < |ifaces|
          ensures ifaces[j].name != ifaces[i].name
        {
          assert longer[j].name != longer[i].name;
        }
      }
    }
  }

  method IndexByName(ifaces: array<Iface>) returns (byName: map<string, nat>)
    ensures NamesLast(byName, ifaces[..]) && OnlyNames(byName, ifaces[..])
  {
    byName := map[];
    for i := 0 to ifaces.Length
      invariant NamesLast(byName, ifaces[..i]) && OnlyNames(byName, ifaces[..i])
    {
      NameOneMore(byName, ifaces[..i], ifaces[i]);
      assert ifaces[..i + 1] == ifaces[..i] + [ifaces[i]];
      byName := byName[ifaces[i].name := i];
    }
    assert ifaces[..ifaces.Length] == ifaces[..];
  }

  /** The interfaces after some lines. */
  ghost predicate AssignedAfter(
      now: seq<Iface>, before: seq<Iface>, lines: seq<seq<string>>, parse: string -> Option<string>) {
    |now| == |before| && forall i :: 0 <= i < |now| ==> now[i] == before[i].(ip := Assigned(before, i, lines, parse))
  }

  /** One more line matters only to the last interface of its name, and only while it has no address. */
  lemma AssignedNext(
      now: seq<Iface>, before: seq<Iface>, lines: seq<seq<string>>, n: nat, parse: string -> Option<string>)
    requires n < |lines| && AssignedAfter(now, before, lines[..n], parse)
    ensures AssignedAfter(
              seq(|now|, i requires 0 <= i < |now| =>
                now[i].(ip := if now[i].ip.Some? || !IsLastOfName(before, i) then now[i].ip
                              else AddressIn(lines[n], before[i].name, parse))),
              before, lines[..n + 1], parse)
  {
    assert lines[..n + 1][..n] == lines[..n];
  }

  /** The body of the loop: the line's address goes to its interface, if that has none yet. */
  method AssignLine(
      ifaces: array<Iface>, byName: map<string, nat>, fields: seq<string>, parse: string -> Option<string>,
      ghost before: seq<Iface>)
    requires NamesLast(byName, before) && OnlyNames(byName, before)
    requires ifaces.Length == |before| && forall i :: 0 <= i < |before| ==> ifaces[i].name == before[i].name
    modifies ifaces
    ensures forall i :: 0 <= i < |before| ==>
              ifaces[i] == old(ifaces[i]).(
                ip := if old(ifaces[i]).ip.Some? || !IsLastOfName(before, i) then old(ifaces[i]).ip
                      else AddressIn(fields, before[i].name, parse))
  {
    var name, cidr := ScanFields(fields, INET);
    if name !in byName || cidr == "" || ifaces[byName[name]].ip.Some? {
      return;
    }
    var addr := parse(cidr);
    if addr.Some? {
      var i := byName[name];
      ifaces[i] := ifaces[i].(ip := addr);
    }
  }

  /**
   Assigns in place: names and MACs stay, an address already there stays, and otherwise the last
   interface of each name gets the first readable address of that name.
   */
  method ApplyIPAddrs(ifaces: array<Iface>, lines: seq<seq<string>>, parse: string -> Option<string>)
    modifies ifaces
    ensures AssignedAfter(ifaces[..], old(ifaces[..]), lines, parse)
  {
    ghost var before := ifaces[..];
    var byName := IndexByName(ifaces);
    for n := 0 to |lines|
      invariant AssignedAfter(ifaces[..], before, lines[..n], parse)
    {
      ghost var now := ifaces[..];
      AssignedNext(now, before, lines, n, parse);
      AssignLine(ifaces, byName, lines[n], parse, before);
      assert ifaces[..] == seq(|now|, i requires 0 <= i < |now| =>
          now[i].(ip := if now[i].ip.Some? || !IsLastOfName(before, i) then now[i].ip
                        else AddressIn(lines[n], before[i].name, parse)));
    }
    assert lines[..|lines|] == lines;
  }
}
