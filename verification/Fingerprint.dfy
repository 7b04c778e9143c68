/** Classifying a host by its open ports. */
module Fingerprint {
  datatype DeviceClass =
    ClassUnknown | ClassWindows | ClassLinux | ClassMac | ClassSnmp | ClassHypervisor | ClassFirewall

  const SNMP_PORT := 161

  function ClassifyByPorts(open: seq<int>): DeviceClass {
    if 5985 in open || 5986 in open || 3389 in open || 135 in open then ClassWindows
    else if SNMP_PORT in open then ClassSnmp
    else if 8006 in open then ClassHypervisor
    else if 22 in open then ClassLinux
    else if 445 in open || 139 in open then ClassWindows
    else if 9100 in open || 631 in open || 515 in open then ClassSnmp
    else ClassUnknown
  }

  /** The decision list as data: any port of a rule selects it, the first selected rule wins. */
  const RULES: seq<set<int>> := [{5985, 5986, 3389, 135}, {161}, {8006}, {22}, {445, 139}, {9100, 631, 515}]
  const CLASSES: seq<DeviceClass> :=
    [ClassWindows, ClassSnmp, ClassHypervisor, ClassLinux, ClassWindows, ClassSnmp, ClassUnknown]

  ghost predicate Selects(rule: nat, ports: iset<int>)
    requires rule < |RULES|
  {
    exists p :: p in RULES[rule] && p in ports
  }

  /** `rule` is the first rule that `ports` selects, or the default after them all. */
  ghost predicate IsFirstRule(rule: nat, ports: iset<int>) {
    && rule <= |RULES|
    && (rule < |RULES| ==> Selects(rule, ports))
    && forall k :: 0 <= k < rule ==> !Selects(k, ports)
  }

  ghost function PortSet(open: seq<int>): iset<int> {
    iset p | p in open
  }

  /** The first rule from `k` on that has an open port. */
  function FirstFrom(k: nat, open: seq<int>): (rule: nat)
    requires k <= |RULES|
    ensures k <= rule <= |RULES|
    decreases |RULES| - k
  {
    if k == |RULES| then k else if exists p :: p in RULES[k] && p in open then k else FirstFrom(k + 1, open)
  }

  function RuleIndex(open: seq<int>): (rule: nat)
    ensures rule < |CLASSES|
  {
    FirstFrom(0, open)
  }

  lemma {:induction false} FirstFromIsFirst(k: nat, open: seq<int>)
    requires k <= |RULES| && forall j :: 0 <= j < k ==> !Selects(j, PortSet(open))
    ensures IsFirstRule(FirstFrom(k, open), PortSet(open))
    decreases |RULES| - k
  {
    if k < |RULES| {
      var s := PortSet(open);
      if p :| p in RULES[k] && p in open {
        assert p in s;
        assert Selects(k, s);
      } else {
        assert !Selects(k, s);
        FirstFromIsFirst(k + 1, open);
      }
    }
  }

  /** The classification is the class of the first selected rule, and so depends on the set of open
      ports only, not on their order or repetition. */
  lemma ClassificationIsFirstRule(open: seq<int>)
    ensures IsFirstRule(RuleIndex(open), PortSet(open))
    ensures ClassifyByPorts(open) == CLASSES[RuleIndex(open)]
  {
    FirstFromIsFirst(0, open);
    var s := PortSet(open);
    assert RULES[0] == {5985, 5986, 3389, 135} && RULES[1] == {161} && RULES[2] == {8006};
    assert RULES[3] == {22} && RULES[4] == {445, 139} && RULES[5] == {9100, 631, 515};
    assert Selects(0, s) <==> 5985 in s || 5986 in s || 3389 in s || 135 in s;
    assert Selects(1, s) <==> 161 in s;
    assert Selects(2, s) <==> 8006 in s;
    assert Selects(3, s) <==> 22 in s;
    assert Selects(4, s) <==> 445 in s || 139 in s;
    assert Selects(5, s) <==> 9100 in s || 631 in s || 515 in s;
  }

  lemma FirstRuleIsUnique(a: nat, b: nat, ports: iset<int>)
    requires IsFirstRule(a, ports) && IsFirstRule(b, ports)
    ensures a == b
  {
  }

  /** ClassToType: never the empty type. */
  function ClassToType(c: DeviceClass): (kind: string)
    ensures kind != ""
    ensures kind == "unknown" <==> c.ClassUnknown?
  {
    match c
    case ClassWindows => "windows"
    case ClassLinux => "linux"
    case ClassMac => "mac"
    case ClassSnmp => "switch"
    case ClassHypervisor => "hypervisor"
    case ClassFirewall => "firewall"
    case ClassUnknown => "unknown"
  }

  /** The types the rules lead to. */
  const TYPES: seq<string> := ["windows", "switch", "hypervisor", "linux", "windows", "switch", "unknown"]

  /** The type a host is first stored with is that of its first rule. */
  lemma TypeIsFirstRule(open: seq<int>)
    ensures ClassToType(ClassifyByPorts(open)) == TYPES[RuleIndex(open)]
  {
    ClassificationIsFirstRule(open);
  }

  /** No two classes have one type. */
  lemma TypesAreDistinct(c: DeviceClass, d: DeviceClass)
    requires ClassToType(c) == ClassToType(d)
    ensures c == d
  {
  }

  /** The types of the classes that no port leads to. */
  lemma TypesWithoutPorts()
    ensures ClassToType(ClassMac) == "mac" && ClassToType(ClassFirewall) == "firewall"
  {
  }
}
