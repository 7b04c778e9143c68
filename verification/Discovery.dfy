/** Expansion of parsed scan specs into a deduplicated address list. */
module Discovery {
  import opened Arithmetic
  import opened Wrappers
  import opened Sequences
  import opened Sorting

  // ---- Addresses ----

  function Pow2(n: nat): (p: nat)
    ensures p > 0
  {
    if n == 0 then 1 else 2 * Pow2(n - 1)
  }

  lemma {:induction false} Pow2Sum(a: nat, b: nat)
    ensures Pow2(a + b) == Pow2(a) * Pow2(b)
  {
    if a > 0 {
      Pow2Sum(a - 1, b);
      assert Pow2(a + b) == 2 * Pow2(a - 1 + b);
    }
  }

  function Width(is4: bool): nat {
    if is4 then 32 else 128
  }

  /** How many addresses the family has. */
  function Limit(is4: bool): nat {
    if is4 then 0x1_0000_0000 else 0x1_0000_0000_0000_0000_0000_0000_0000_0000
  }

  /** Squaring a known power. */
  lemma Pow2Square(n: nat, p: nat)
    requires Pow2(n) == p
    ensures Pow2(n + n) == p * p
  {
    Pow2Sum(n, n);
  }

  lemma LimitIsPow2(is4: bool)
    ensures Limit(is4) == Pow2(Width(is4))
  {
    Pow2Square(1, 2);
    Pow2Square(2, 4);
    Pow2Square(4, 0x10);
    Pow2Square(8, 0x100);
    Pow2Square(16, 0x1_0000);
    Pow2Square(32, 0x1_0000_0000);
    Pow2Square(64, 0x1_0000_0000_0000_0000);
  }

  datatype Ip = Ip(is4: bool, value: nat, zone: string)

  /** A valid netip.Addr: in range for its family, and only IPv6 has zones. */
  type Address = a: Ip | a.value < Limit(a.is4) && (a.is4 ==> a.zone == "") witness Ip(true, 0, "")

  /** Addr.Next: the family's last address is followed by the invalid address. */
  function Next(a: Address): Option<Address> {
    if a.value + 1 < Limit(a.is4) then Some(a.(value := a.value + 1)) else None
  }

  /** Addr.Compare: family width, then value, then zone. */
  function Compare(a: Address, b: Address): int {
    if a.is4 != b.is4 then (if a.is4 then -1 else 1)
    else if a.value != b.value then (if a.value < b.value then -1 else 1)
    else if Before(a.zone, b.zone) then -1
    else if a.zone == b.zone then 0 else 1
  }

  // ---- Specs ----

  /** A parsed prefix: no zone, and no more bits than the family has. */
  type Prefix = p: (Address, nat) | p.0.zone == "" && p.1 <= Width(p.0.is4) witness (Ip(true, 0, ""), 32)

  /** A trimmed spec after netip's parsing. */
  datatype Spec =
    | Blank
    | Unparsable
    | Cidr(prefix: Prefix)
    | Range(lo: Address, hi: Address)
    | Single(addr: Address)

  function BlockSize(p: Prefix): nat {
    Pow2(Width(p.0.is4) - p.1)
  }

  /** Prefix.Masked().Addr(): the host bits cleared. */
  function Base(p: Prefix): (a: Address)
    ensures a.is4 == p.0.is4 && a.zone == ""
    ensures a.value <= p.0.value && a.value + BlockSize(p) <= Limit(a.is4)
  {
    MaskBounds(p);
    Ip(p.0.is4, p.0.value / BlockSize(p) * BlockSize(p), "")
  }

  lemma MaskBounds(p: Prefix)
    ensures var q := p.0.value / BlockSize(p);
            0 <= q * BlockSize(p) <= p.0.value && q * BlockSize(p) + BlockSize(p) <= Limit(p.0.is4)
  {
    LimitIsPow2(p.0.is4);
    Pow2Sum(p.1, Width(p.0.is4) - p.1);
    MaskedBelow(p.0.value, Pow2(p.1), BlockSize(p));
  }

  lemma MaskedBelow(x: nat, k: nat, b: nat)
    requires b > 0 && x < k * b
    ensures 0 <= x / b * b <= x && x / b * b + b <= k * b
  {
    var q := x / b;
    DivMul(x, b);
    if q >= k {
      MulMonotone(k, q, b);
    }
    MulMonotone(q + 1, k, b);
    assert (q + 1) * b == q * b + b;
  }

  lemma DivMul(x: nat, b: nat)
    requires b > 0
    ensures x / b * b <= x < x / b * b + b
  {
  }

  /** Prefix.Contains: same family, no zone, same leading bits. */
  predicate Contains(p: Prefix, a: Address) {
    a.is4 == p.0.is4 && a.zone == "" && a.value / BlockSize(p) == p.0.value / BlockSize(p)
  }

  /** `n` consecutive addresses from `a` on. */
  function Run(a: Address, n: nat): (r: seq<Address>)
    requires a.value + n <= Limit(a.is4)
    ensures |r| == n && forall i :: 0 <= i < n ==> r[i] == a.(value := a.value + i)
  {
    seq(n, i requires 0 <= i < n => a.(value := a.value + i))
  }

  lemma RunAppend(a: Address, n: nat)
    requires a.value + n < Limit(a.is4)
    ensures Run(a, n + 1) == Run(a, n) + [a.(value := a.value + n)]
  {
  }

  predicate InBlock(base: Address, size: nat, a: Address) {
    a.is4 == base.is4 && a.zone == base.zone && base.value <= a.value < base.value + size
  }

  lemma SameQuotient(x: nat, y: nat, b: nat)
    requires b > 0
    ensures x / b == y / b <==> y / b * b <= x < y / b * b + b
  {
    DivMul(x, b);
    var q, r := x / b, y / b;
    if q < r {
      MulMonotone(q + 1, r, b);
      assert (q + 1) * b == q * b + b;
    } else if q > r {
      MulMonotone(r + 1, q, b);
      assert (r + 1) * b == r * b + b;
    }
  }

  /** A CIDR contains exactly the block of `BlockSize` addresses from its base. */
  lemma ContainsIffInBlock(p: Prefix, a: Address)
    ensures Contains(p, a) <==> InBlock(Base(p), BlockSize(p), a)
  {
    SameQuotient(a.value, p.0.value, BlockSize(p));
  }

  // ---- Leading bits ----

  /** Bit `j` of a `w`-bit number, the most significant first. */
  function Bit(x: nat, w: nat, j: nat): nat
    requires j < w
  {
    x / Pow2(w - 1 - j) % 2
  }

  predicate SameLeadingBits(a: Address, b: Address, n: nat)
    requires a.is4 == b.is4 && n <= Width(a.is4)
  {
    forall j :: 0 <= j < n ==> Bit(a.value, Width(a.is4), j) == Bit(b.value, Width(b.is4), j)
  }

  lemma QuotientIs(x: nat, b: nat, q: nat)
    requires b > 0 && q * b <= x < q * b + b
    ensures x / b == q
  {
    var d := x / b;
    DivMul(x, b);
    assert (d + 1) * b == d * b + b && (q + 1) * b == q * b + b;
    if d < q {
      MulMonotone(d + 1, q, b);
    } else if d > q {
      MulMonotone(q + 1, d, b);
    }
  }

  lemma HalfQuotient(x: nat, b: nat, h: nat, bit: nat)
    requires b > 0 && bit <= 1 && (2 * h + bit) * b <= x < (2 * h + bit) * b + b
    ensures x / (2 * b) == h
  {
    assert (2 * h + bit) * b == h * (2 * b) + bit * b;
    QuotientIs(x, 2 * b, h);
  }

  /** Dividing by half as much brings one more bit. */
  lemma OneMoreBit(x: nat, b: nat)
    requires b > 0
    ensures x / b == 2 * (x / (2 * b)) + x / b % 2
  {
    var q := x / b;
    DivMul(x, b);
    assert q == 2 * (q / 2) + q % 2;
    HalfQuotient(x, b, q / 2, q % 2);
  }

  /** Two numbers have the same quotient by a power of two exactly when they agree in the bits above it. */
  lemma {:induction false} SameQuotientIffSameBits(x: nat, y: nat, w: nat, n: nat)
    requires n <= w && x < Pow2(w) && y < Pow2(w)
    ensures x / Pow2(w - n) == y / Pow2(w - n) <==> forall j :: 0 <= j < n ==> Bit(x, w, j) == Bit(y, w, j)
  {
    if n == 0 {
      QuotientIs(x, Pow2(w), 0);
      QuotientIs(y, Pow2(w), 0);
    } else {
      SameQuotientIffSameBits(x, y, w, n - 1);
      assert Pow2(w - (n - 1)) == 2 * Pow2(w - n);
      OneMoreBit(x, Pow2(w - n));
      OneMoreBit(y, Pow2(w - n));
      assert Bit(x, w, n - 1) == x / Pow2(w - n) % 2 && Bit(y, w, n - 1) == y / Pow2(w - n) % 2;
    }
  }

  /** A CIDR contains exactly the addresses of its family, without a zone, that agree with its own in the
      leading bits, as many as the prefix is long. */
  lemma ContainsIffSameLeadingBits(p: Prefix, a: Address)
    ensures Contains(p, a) <==> a.is4 == p.0.is4 && a.zone == "" && SameLeadingBits(a, p.0, p.1)
  {
    if a.is4 == p.0.is4 {
      LimitIsPow2(a.is4);
      SameQuotientIffSameBits(a.value, p.0.value, Width(a.is4), p.1);
    }
  }

  // ---- What a spec denotes ----

  /** parseRange refuses mixed families and descending ranges. */
  predicate RangeAccepted(lo: Address, hi: Address) {
    lo.is4 == hi.is4 && Compare(lo, hi) <= 0
  }

  /** A range is accepted when its ends are of one family and in order, by value and then by zone. */
  lemma RangeAcceptedIff(lo: Address, hi: Address)
    ensures RangeAccepted(lo, hi)
            <==> lo.is4 == hi.is4 && (lo.value < hi.value || (lo.value == hi.value && !Before(hi.zone, lo.zone)))
  {
    BeforeTotal(lo.zone, hi.zone);
    if Before(lo.zone, hi.zone) && Before(hi.zone, lo.zone) {
      BeforeTransitive(lo.zone, hi.zone, lo.zone);
    }
  }

  predicate Rejected(s: Spec) {
    s.Unparsable? || (s.Range? && !RangeAccepted(s.lo, s.hi))
  }

  /** An accepted range whose ends have different zones: the loop never meets its end. */
  predicate NeverEnds(s: Spec) {
    s.Range? && RangeAccepted(s.lo, s.hi) && s.lo.zone != s.hi.zone
  }

  predicate Fine(s: Spec) {
    !Rejected(s) && !NeverEnds(s)
  }

  /** The addresses of one spec, in the order they are produced. */
  function Denote(s: Spec): seq<Address>
    requires Fine(s)
  {
    match s
    case Blank => []
    case Cidr(p) => Run(Base(p), BlockSize(p))
    case Range(lo, hi) => Run(lo, hi.value - lo.value + 1)
    case Single(a) => [a]
  }

  function DenoteAll(specs: seq<Spec>): seq<Address>
    requires forall i :: 0 <= i < |specs| ==> Fine(specs[i])
  {
    if specs == [] then [] else DenoteAll(specs[..|specs| - 1]) + Denote(specs[|specs| - 1])
  }

  /** Whether an address belongs to a spec, said without enumeration. */
  ghost predicate Covers(s: Spec, a: Address) {
    match s
    case Blank => false
    case Unparsable => false
    case Cidr(p) => Contains(p, a)
    case Range(lo, hi) => a.is4 == lo.is4 && a.zone == lo.zone && lo.value <= a.value <= hi.value
    case Single(b) => a == b
  }

  lemma DenoteCovers(s: Spec, a: Address)
    requires Fine(s)
    ensures a in Denote(s) <==> Covers(s, a)
  {
    match s {
      case Cidr(p) =>
        ContainsIffInBlock(p, a);
        if Contains(p, a) {
          assert Run(Base(p), BlockSize(p))[a.value - Base(p).value] == a;
        }
      case Range(lo, hi) =>
        if Covers(s, a) {
          assert Run(lo, hi.value - lo.value + 1)[a.value - lo.value] == a;
        }
      case _ =>
    }
  }

  /** A CIDR denotes two to the number of its host bits, in ascending order: those that agree with it in the
      leading bits. */
  lemma CidrDenotes(p: Prefix)
    ensures |Denote(Cidr(p))| == Pow2(Width(p.0.is4) - p.1)
    ensures forall i, j :: 0 <= i < j < |Denote(Cidr(p))| ==> Denote(Cidr(p))[i].value < Denote(Cidr(p))[j].value
    ensures forall a: Address ::
              a in Denote(Cidr(p)) <==> a.is4 == p.0.is4 && a.zone == "" && SameLeadingBits(a, p.0, p.1)
  {
    forall a: Address
      ensures a in Denote(Cidr(p)) <==> a.is4 == p.0.is4 && a.zone == "" && SameLeadingBits(a, p.0, p.1)
    {
      DenoteCovers(Cidr(p), a);
      ContainsIffSameLeadingBits(p, a);
    }
  }

  const NET_10: Prefix := (Ip(true, 0x0a00_0000, ""), 24)

  /** 10.0.0.0/24 denotes 10.0.0.0, 10.0.0.1, ..., 10.0.0.255. */
  lemma Slash24Example()
    ensures |Denote(Cidr(NET_10))| == 256
    ensures forall i :: 0 <= i < 256 ==> Denote(Cidr(NET_10))[i] == Ip(true, 0x0a00_0000 + i, "")
  {
    Pow2Square(1, 2);
    Pow2Square(2, 4);
    Pow2Square(4, 0x10);
    assert Base(NET_10).value == 0x0a00_0000;
  }

  ghost predicate Covered(specs: seq<Spec>, a: Address) {
    exists i :: 0 <= i < |specs| && Covers(specs[i], a)
  }

  lemma CoveredByLast(init: seq<Spec>, last: Spec, a: Address)
    ensures Covered(init + [last], a) <==> Covered(init, a) || Covers(last, a)
  {
    var specs := init + [last];
    if i :| 0 <= i < |init| && Covers(init[i], a) {
      assert Covers(specs[i], a);
    }
    if Covers(last, a) {
      assert Covers(specs[|init|], a);
    }
  }

  /** The expansion is the union of what its specs denote. */
  lemma {:induction false} ExpansionIsUnion(specs: seq<Spec>, a: Address)
    requires forall i :: 0 <= i < |specs| ==> Fine(specs[i])
    ensures a in Distinct(DenoteAll(specs)) <==> Covered(specs, a)
  {
    if specs != [] {
      var init, last := specs[..|specs| - 1], specs[|specs| - 1];
      assert specs == init + [last];
      ExpansionIsUnion(init, a);
      DenoteCovers(last, a);
      CoveredByLast(init, last, a);
      assert a in DenoteAll(specs) <==> a in DenoteAll(init) || a in Denote(last);
    }
  }

  // ---- Termination of the range loop ----

  /** `a.Next()` taken `n` times; None once it has run off the end of the family. */
  function NthNext(a: Address, n: nat): Option<Address> {
    if n == 0 then Some(a)
    else
      var before := NthNext(a, n - 1);
      if before.Some? then Next(before.value) else None
  }

  lemma {:induction false} NthNextIs(a: Address, n: nat)
    ensures NthNext(a, n) == if a.value + n < Limit(a.is4) then Some(a.(value := a.value + n)) else None
  {
    if n > 0 {
      NthNextIs(a, n - 1);
    }
  }

  /** The loop over an accepted range meets its last address exactly when both ends have one zone. */
  lemma RangeEndsIffSameZone(lo: Address, hi: Address)
    requires RangeAccepted(lo, hi)
    ensures (exists n: nat :: NthNext(lo, n) == Some(hi)) <==> lo.zone == hi.zone
  {
    if lo.zone == hi.zone {
      BeforeTotal(lo.zone, hi.zone);
      NthNextIs(lo, hi.value - lo.value);
      assert NthNext(lo, hi.value - lo.value) == Some(hi);
    }
    forall n: nat
      ensures NthNext(lo, n).Some? ==> NthNext(lo, n).value.zone == lo.zone
    {
      NthNextIs(lo, n);
    }
  }

  const LINK_A: Address := Ip(false, 0xfe80_0000_0000_0000_0000_0000_0000_0001, "a")
  const LINK_B: Address := Ip(false, 0xfe80_0000_0000_0000_0000_0000_0000_0002, "b")

  /** fe80::1%a-fe80::2%b is accepted, and its loop runs off the end of the address space. */
  lemma MixedZonesExample()
    ensures NeverEnds(Range(LINK_A, LINK_B)) && forall n: nat :: NthNext(LINK_A, n) != Some(LINK_B)
  {
    RangeEndsIffSameZone(LINK_A, LINK_B);
  }

  // ---- The loops ----

  datatype Expansion =
    | Addresses(addrs: seq<Address>)
    | InvalidSpec(index: nat)
    | RunsForever(index: nat)

  class AddressList {
    var seen: set<Address>
    var out: seq<Address>
    ghost var added: seq<Address>

    ghost predicate Valid()
      reads this
    {
      out == Distinct(added) && forall a :: a in seen <==> a in out
    }

    constructor ()
      ensures Valid() && added == []
    {
      seen, out, added := {}, [], [];
    }

    method Add(a: Address)
      requires Valid()
      modifies this
      ensures Valid() && added == old(added) + [a]
    {
      DistinctAppendOne(added, a);
      if a !in seen {
        seen := seen + {a};
        out := out + [a];
      }
      added := added + [a];
    }

    /** The loop `for a := base; inside(a); a = a.Next()`, where `inside` is a block of `size` addresses. */
    method AddWhile(base: Address, inside: Address -> bool, ghost size: nat)
      requires Valid() && base.value + size <= Limit(base.is4)
      requires forall a: Address :: inside(a) <==> InBlock(base, size, a)
      modifies this
      ensures Valid() && added == old(added) + Run(base, size)
    {
      var a: Option<Address> := Some(base);
      ghost var n := 0;
      while a.Some? && inside(a.value)
        invariant Valid() && n <= size
        invariant a == if base.value + n < Limit(base.is4) then Some(base.(value := base.value + n)) else None
        invariant added == old(added) + Run(base, n)
        decreases size - n
      {
        assert InBlock(base, size, a.value);
        RunAppend(base, n);
        Add(a.value);
        a := Next(a.value);
        n := n + 1;
      }
      assert n < size ==> a.Some? && InBlock(base, size, a.value);
    }

    method AddPrefix(p: Prefix)
      requires Valid()
      modifies this
      ensures Valid() && added == old(added) + Run(Base(p), BlockSize(p))
    {
      forall a: Address
        ensures Contains(p, a) <==> InBlock(Base(p), BlockSize(p), a)
      {
        ContainsIffInBlock(p, a);
      }
      AddWhile(Base(p), (a: Address) => Contains(p, a), BlockSize(p));
    }

    method AddRange(lo: Address, hi: Address)
      requires Valid() && RangeAccepted(lo, hi) && lo.zone == hi.zone
      modifies this
      ensures lo.value <= hi.value
      ensures Valid() && added == old(added) + Run(lo, hi.value - lo.value + 1)
    {
      BeforeTotal(lo.zone, hi.zone);
      var a := lo;
      Add(a);
      assert Run(lo, 1) == [lo];
      while a != hi
        invariant Valid() && lo.value <= a.value <= hi.value && a == lo.(value := a.value)
        invariant added == old(added) + Run(lo, a.value - lo.value + 1)
        decreases hi.value - a.value
      {
        var next := Next(a);
        RunAppend(lo, a.value - lo.value + 1);
        a := next.value;
        Add(a);
      }
    }

    method AddSpec(s: Spec)
      requires Valid() && Fine(s)
      modifies this
      ensures Valid() && added == old(added) + Denote(s)
    {
      match s {
        case Blank =>
        case Unparsable =>
        case Cidr(p) => AddPrefix(p);
        case Range(lo, hi) => AddRange(lo, hi);
        case Single(a) => Add(a);
      }
    }
  }

  lemma DenoteAllAppend(specs: seq<Spec>, n: nat)
    requires n < |specs| && forall i :: 0 <= i <= n ==> Fine(specs[i])
    ensures DenoteAll(specs[..n + 1]) == DenoteAll(specs[..n]) + Denote(specs[n])
  {
    assert specs[..n + 1][..n] == specs[..n];
  }

  /**
   The expansion: the distinct addresses of all specs in order of first occurrence; or the first
   spec that is refused; or the first one on which the program would loop for ever.
   */
  method Expand(specs: seq<Spec>) returns (r: Expansion)
    ensures r.Addresses? <==> forall i :: 0 <= i < |specs| ==> Fine(specs[i])
    ensures r.Addresses? ==> r.addrs == Distinct(DenoteAll(specs))
    ensures !r.Addresses? ==> r.index < |specs| && forall i :: 0 <= i < r.index ==> Fine(specs[i])
    ensures r.InvalidSpec? ==> Rejected(specs[r.index])
    ensures r.RunsForever? ==> NeverEnds(specs[r.index])
  {
    var list := new AddressList();
    for i := 0 to |specs|
      invariant fresh(list) && list.Valid()
      invariant forall k :: 0 <= k < i ==> Fine(specs[k])
      invariant list.added == DenoteAll(specs[..i])
    {
      if Rejected(specs[i]) {
        return InvalidSpec(i);
      }
      if NeverEnds(specs[i]) {
        return RunsForever(i);
      }
      DenoteAllAppend(specs, i);
      list.AddSpec(specs[i]);
    }
    assert specs[..|specs|] == specs;
    return Addresses(list.out);
  }
}
