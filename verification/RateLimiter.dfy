/** The token bucket that paces discovery, and what its whole-nanosecond ticker does to the rate. */
module RateLimiter {
  import opened Arithmetic
  import opened Wrappers

  const SECOND := 1_000_000_000

  /** `ticks`, `taken` and `dropped` record history. */
  datatype Bucket = Bucket(tokens: nat, ticks: nat, taken: nat, dropped: nat)

  const EMPTY := Bucket(0, 0, 0, 0)

  datatype Event = Tick | Take

  /** A tick adds a token unless the channel is full; a take needs a token. */
  predicate Possible(b: Bucket, e: Event) {
    e == Take ==> b.tokens > 0
  }

  function Step(perSec: nat, b: Bucket, e: Event): Bucket
    requires Possible(b, e)
  {
    match e
    case Tick =>
      if b.tokens < perSec then b.(tokens := b.tokens + 1, ticks := b.ticks + 1)
      else b.(dropped := b.dropped + 1, ticks := b.ticks + 1)
    case Take => b.(tokens := b.tokens - 1, taken := b.taken + 1)
  }

  ghost predicate Sound(perSec: nat, b: Bucket) {
    b.ticks == b.taken + b.tokens + b.dropped && b.tokens <= perSec
  }

  /** The bucket after `events`, None when one of them is impossible. */
  function After(perSec: nat, b: Bucket, events: seq<Event>): Option<Bucket> {
    if events == [] then Some(b)
    else
      var r := After(perSec, b, events[..|events| - 1]);
      if r.Some? && Possible(r.value, events[|events| - 1]) then Some(Step(perSec, r.value, events[|events| - 1]))
          else None
  }

  function CountOf(e: Event, events: seq<Event>): nat {
    if events == [] then 0 else CountOf(e, events[..|events| - 1]) + if events[|events| - 1] == e then 1 else 0
  }

  /** Every tick is taken, waiting in the bucket or dropped; and no window takes more than what was in
      the bucket plus the window's own ticks. */
  lemma {:induction false} TokensAreConserved(perSec: nat, b: Bucket, events: seq<Event>)
    requires Sound(perSec, b) && After(perSec, b, events).Some?
    ensures var a := After(perSec, b, events).value;
            && Sound(perSec, a)
            && a.ticks == b.ticks + CountOf(Tick, events)
            && a.taken == b.taken + CountOf(Take, events)
            && a.dropped >= b.dropped
            && CountOf(Take, events) <= b.tokens + CountOf(Tick, events) <= perSec + CountOf(Tick, events)
  {
    if events != [] {
      TokensAreConserved(perSec, b, events[..|events| - 1]);
    }
  }

  lemma AfterOneMore(perSec: nat, b: Bucket, events: seq<Event>, e: Event)
    requires After(perSec, b, events).Some? && Possible(After(perSec, b, events).value, e)
    ensures After(perSec, b, events + [e]) == Some(Step(perSec, After(perSec, b, events).value, e))
  {
    assert (events + [e])[..|events|] == events;
  }

  /** A tick is dropped exactly when as many tokens wait as the rate allows, and otherwise adds one. */
  lemma DroppedIffFull(perSec: nat, b: Bucket, events: seq<Event>)
    requires Sound(perSec, b) && After(perSec, b, events).Some?
    ensures var before, after := After(perSec, b, events).value, After(perSec, b, events + [Tick]);
            && after.Some?
            && (after.value.dropped != before.dropped <==> before.tokens == perSec)
            && after.value.tokens == if before.tokens == perSec then perSec else before.tokens + 1
  {
    TokensAreConserved(perSec, b, events);
    AfterOneMore(perSec, b, events, Tick);
  }

  class Limiter {
    const perSec: nat
    var bucket: Bucket
    ghost var trace: seq<Event>

    /** The bucket is what its trace makes of an empty one, and so never holds more than `perSec`. */
    ghost predicate Valid()
      reads this
    {
      After(perSec, EMPTY, trace) == Some(bucket) && Sound(perSec, bucket)
    }

    constructor (perSec: nat)
      ensures Valid() && this.perSec == perSec && trace == []
    {
      this.perSec := perSec;
      bucket, trace := EMPTY, [];
    }

    /** The ticker goroutine: a non-blocking send. */
    method OnTick()
      requires Valid()
      modifies this
      ensures Valid() && trace == old(trace) + [Tick]
    {
      AfterOneMore(perSec, EMPTY, trace, Tick);
      if bucket.tokens < perSec {
        bucket := bucket.(tokens := bucket.tokens + 1, ticks := bucket.ticks + 1);
      } else {
        bucket := bucket.(dropped := bucket.dropped + 1, ticks := bucket.ticks + 1);
      }
      trace := trace + [Tick];
    }

    /** A waiter gets a token, or leaves empty-handed because its context is done; when both are
        possible either may happen. */
    method Wait(cancelled: bool) returns (taken: bool)
      requires Valid() && (bucket.tokens > 0 || cancelled)
      modifies this
      ensures Valid() && trace == if taken then old(trace) + [Take] else old(trace)
      ensures !taken ==> cancelled && bucket == old(bucket)
    {
      var preferToken: bool := *;
      taken := bucket.tokens > 0 && (!cancelled || preferToken);
      if taken {
        AfterOneMore(perSec, EMPTY, trace, Take);
        bucket := bucket.(tokens := bucket.tokens - 1, taken := bucket.taken + 1);
        trace := trace + [Take];
      }
    }
  }

  // ---- The ticker's interval ----

  /** What newLimiter does with a rate: no limiter, a panic of the zero-interval ticker, or a limiter. */
  datatype Created = Unlimited | Panics | Limited(interval: nat)

  function NewLimiter(perSec: int): (r: Created)
    ensures r.Unlimited? <==> perSec <= 0
    ensures r.Panics? <==> perSec > SECOND
    ensures r.Limited? ==> r.interval > 0 && r.interval * perSec <= SECOND < (r.interval + 1) * perSec
  {
    if perSec <= 0 then Unlimited
    else if SECOND / perSec == 0 then Panics
    else Limited(SECOND / perSec)
  }

  /** `n` ticks fit into the first `s` seconds when tick k never comes before k intervals. */
  ghost predicate TicksFit(interval: nat, s: nat, n: nat) {
    n * interval <= s * SECOND
  }

  /** The floor in the interval costs less than one extra tick a second. */
  predicate CloseToRate(perSec: nat)
    requires perSec > 0
  {
    SECOND % perSec < SECOND / perSec
  }

  lemma TicksWithin(perSec: nat, interval: nat, rest: nat, s: nat, n: nat)
    requires interval * perSec + rest == SECOND && rest < interval && s > 0
    requires TicksFit(interval, s, n)
    ensures n <= s * perSec + s - 1
  {
    var whole := interval * perSec;
    Distribute(s, whole, rest);
    Distribute(interval, s * perSec, s);
    Associate(s, perSec, interval);
    Distribute(s, rest, interval - rest);
    assert (s * perSec + s) * interval == s * whole + s * interval;
    assert n * interval < (s * perSec + s) * interval;
    CancelFactor(n, s * perSec + s, interval);
  }

  lemma Distribute(c: nat, a: nat, b: nat)
    ensures c * (a + b) == c * a + c * b && (a + b) * c == c * (a + b)
    ensures c > 0 && b > 0 ==> c * b > 0
  {
  }

  lemma Associate(a: nat, b: nat, c: nat)
    ensures (a * b) * c == a * (c * b) == c * (a * b)
  {
  }

  lemma CancelFactor(a: int, b: int, c: nat)
    requires c > 0 && a * c < b * c
    ensures a < b
  {
    assert (b - a) * c == b * c - a * c;
  }

  /** In each first `s` seconds at most one tick a second beyond the rate fits, for every `s`, exactly
      when the interval exceeds what the division leaves. */
  lemma ExtraTicksIff(perSec: nat)
    requires 0 < perSec <= SECOND
    ensures CloseToRate(perSec) <==>
            forall s: nat, n: nat :: s > 0 && TicksFit(SECOND / perSec, s, n) ==> n <= s * perSec + s - 1
  {
    if CloseToRate(perSec) {
      forall s: nat, n: nat | s > 0 && TicksFit(SECOND / perSec, s, n)
        ensures n <= s * perSec + s - 1
      {
        TicksWithin(perSec, SECOND / perSec, SECOND % perSec, s, n);
      }
    } else {
      OneTickTooMany(perSec);
    }
  }

  lemma OneTickTooMany(perSec: nat)
    requires 0 < perSec <= SECOND && !CloseToRate(perSec)
    ensures TicksFit(SECOND / perSec, 1, perSec + 1)
  {
    var interval := SECOND / perSec;
    assert (perSec + 1) * interval == perSec * interval + interval;
  }

  lemma SmallRatesAreClose(perSec: nat)
    requires 0 < perSec && perSec * perSec <= SECOND
    ensures CloseToRate(perSec)
  {
    var q := SECOND / perSec;
    assert (q + 1) * perSec == q * perSec + perSec;
    CancelFactor(perSec, q + 1, perSec);
  }

  /** 600 million a second is 1 ns apart: a billion ticks in the first second. */
  lemma HugeRateOvershoots()
    ensures !CloseToRate(600_000_000) && TicksFit(SECOND / 600_000_000, 1, 1_000_000_000)
  {
  }

  // ---- Traces in time ----

  datatype Timed = Timed(at: nat, event: Event)

  function Events(trace: seq<Timed>): seq<Event> {
    seq(|trace|, i requires 0 <= i < |trace| => trace[i].event)
  }

  /** Tick k never comes before k intervals. */
  ghost predicate NeverEarly(interval: nat, trace: seq<Timed>) {
    forall i :: 0 <= i < |trace| && trace[i].event == Tick ==>
      trace[i].at >= CountOf(Tick, Events(trace)[..i + 1]) * interval
  }

  /** What a limiter of this rate may do within the first `s` seconds. */
  ghost predicate Within(perSec: nat, trace: seq<Timed>, s: nat)
    requires perSec > 0
  {
    && After(perSec, EMPTY, Events(trace)).Some?
    && NeverEarly(SECOND / perSec, trace)
    && forall i :: 0 <= i < |trace| ==> trace[i].at <= s * SECOND
  }

  lemma {:induction false} LastTick(events: seq<Event>) returns (i: nat)
    requires CountOf(Tick, events) > 0
    ensures i < |events| && events[i] == Tick && CountOf(Tick, events[..i + 1]) == CountOf(Tick, events)
  {
    var n := |events| - 1;
    if events[n] == Tick {
      i := n;
      assert events[..n + 1] == events;
    } else {
      i := LastTick(events[..n]);
      assert events[..n][..i + 1] == events[..i + 1];
    }
  }

  /** The ticks of the first `s` seconds fit into them. */
  lemma TicksOfTraceFit(perSec: nat, trace: seq<Timed>, s: nat)
    requires perSec > 0 && Within(perSec, trace, s)
    ensures TicksFit(SECOND / perSec, s, CountOf(Tick, Events(trace)))
  {
    if CountOf(Tick, Events(trace)) > 0 {
      var i := LastTick(Events(trace));
      assert trace[i].event == Tick;
    }
  }

  function TakenIn(perSec: nat, trace: seq<Timed>): nat
    requires After(perSec, EMPTY, Events(trace)).Some?
  {
    After(perSec, EMPTY, Events(trace)).value.taken
  }

  lemma SplitSecond(perSec: nat)
    requires 0 < perSec
    ensures SECOND / perSec * perSec + SECOND % perSec == SECOND
  {
  }

  /** The rate a caller sees: at most s * perSec + s - 1 tokens are taken in the first `s` seconds. */
  lemma RateBound(perSec: nat, trace: seq<Timed>, s: nat)
    requires 0 < perSec <= SECOND && CloseToRate(perSec) && s > 0 && Within(perSec, trace, s)
    ensures TakenIn(perSec, trace) <= s * perSec + s - 1
  {
    assert TakenIn(perSec, trace) <= CountOf(Tick, Events(trace)) by {
      TokensAreConserved(perSec, EMPTY, Events(trace));
    }
    TicksOfTraceFit(perSec, trace, s);
    SplitSecond(perSec);
    TicksWithin(perSec, SECOND / perSec, SECOND % perSec, s, CountOf(Tick, Events(trace)));
  }

  /** A tick at every interval, each token taken at once. */
  function Busy(interval: nat, n: nat): seq<Timed> {
    if n == 0 then [] else Busy(interval, n - 1) + [Timed(n * interval, Tick), Timed(n * interval, Take)]
  }

  lemma EventsOneMore(trace: seq<Timed>, t: Timed)
    ensures Events(trace + [t]) == Events(trace) + [t.event]
  {
  }

  lemma CountOneMore(e: Event, events: seq<Event>, f: Event)
    ensures CountOf(e, events + [f]) == CountOf(e, events) + if f == e then 1 else 0
  {
    assert (events + [f])[..|events|] == events;
  }

  lemma {:induction false} BusyTakesAll(perSec: nat, interval: nat, n: nat)
    requires perSec > 0
    ensures After(perSec, EMPTY, Events(Busy(interval, n))) == Some(Bucket(0, n, n, 0))
    ensures CountOf(Tick, Events(Busy(interval, n))) == n
  {
    if n > 0 {
      BusyTakesAll(perSec, interval, n - 1);
      var before := Busy(interval, n - 1);
      var ticked := before + [Timed(n * interval, Tick)];
      EventsOneMore(before, Timed(n * interval, Tick));
      EventsOneMore(ticked, Timed(n * interval, Take));
      AfterOneMore(perSec, EMPTY, Events(before), Tick);
      AfterOneMore(perSec, EMPTY, Events(ticked), Take);
      CountOneMore(Tick, Events(before), Tick);
      CountOneMore(Tick, Events(ticked), Take);
      assert Busy(interval, n) == ticked + [Timed(n * interval, Take)];
    }
  }

  lemma EarlyOneMore(interval: nat, trace: seq<Timed>, t: Timed)
    requires NeverEarly(interval, trace)
    requires t.event == Tick ==> t.at >= (CountOf(Tick, Events(trace)) + 1) * interval
    ensures NeverEarly(interval, trace + [t])
  {
    var longer := trace + [t];
    EventsOneMore(trace, t);
    CountOneMore(Tick, Events(trace), t.event);
    forall i | 0 <= i < |longer| && longer[i].event == Tick
      ensures longer[i].at >= CountOf(Tick, Events(longer)[..i + 1]) * interval
    {
      if i < |trace| {
        assert Events(longer)[..i + 1] == Events(trace)[..i + 1];
      } else {
        assert Events(longer)[..i + 1] == Events(longer);
      }
    }
  }

  lemma {:induction false} BusyIsNeverEarly(perSec: nat, interval: nat, n: nat)
    requires perSec > 0
    ensures NeverEarly(interval, Busy(interval, n))
    ensures forall i :: 0 <= i < |Busy(interval, n)| ==> Busy(interval, n)[i].at <= n * interval
  {
    if n > 0 {
      BusyIsNeverEarly(perSec, interval, n - 1);
      var before := Busy(interval, n - 1);
      var tick, take := Timed(n * interval, Tick), Timed(n * interval, Take);
      assert CountOf(Tick, Events(before)) == n - 1 by {
        BusyTakesAll(perSec, interval, n - 1);
      }
      EarlyOneMore(interval, before, tick);
      EarlyOneMore(interval, before + [tick], take);
      assert Busy(interval, n) == before + [tick] + [take];
      MulMonotone(n - 1, n, interval);
    }
  }

  /** The limiter keeps that rate over every trace and every number of seconds exactly when the interval
      exceeds what the division leaves. */
  lemma RateBoundIff(perSec: nat)
    requires 0 < perSec <= SECOND
    ensures CloseToRate(perSec) <==>
            forall trace: seq<Timed>, s: nat :: s > 0 && Within(perSec, trace, s) ==>
              TakenIn(perSec, trace) <= s * perSec + s - 1
  {
    if CloseToRate(perSec) {
      forall trace: seq<Timed>, s: nat | s > 0 && Within(perSec, trace, s)
        ensures TakenIn(perSec, trace) <= s * perSec + s - 1
      {
        RateBound(perSec, trace, s);
      }
    } else {
      var interval := SECOND / perSec;
      OneTickTooMany(perSec);
      BusyTakesAll(perSec, interval, perSec + 1);
      BusyIsNeverEarly(perSec, interval, perSec + 1);
      assert Within(perSec, Busy(interval, perSec + 1), 1);
      assert TakenIn(perSec, Busy(interval, perSec + 1)) == perSec + 1;
    }
  }
}
