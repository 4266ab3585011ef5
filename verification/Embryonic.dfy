/** The leases of embryonic (not yet authenticated) child processes of the proxy daemon:
    a table of timestamps in shared memory that the master sweeps and claims from, and that
    the children free. */
module Embryonic {

  /** MaxEmbryonics = "start:rate:max" and EmbryonicGraceTime. */
  datatype Config = Config(start: int, rate: int, max: nat, grace: nat) {
    /** What loading the configuration lets through. */
    predicate Valid() {
      start <= max <= 200 && 1 <= rate <= 100
    }
  }

  const FREE: int := 0

  /** A timestamp still holds its slot at time `now`. */
  predicate Holds(config: Config, stamp: int, now: int) {
    now - config.grace < stamp
  }

  function Swept(config: Config, slots: seq<int>, now: int): (r: seq<int>)
    ensures |r| == |slots|
    ensures forall i :: 0 <= i < |slots| ==> r[i] == if Holds(config, slots[i], now) then slots[i] else FREE
  {
    seq(|slots|, i requires 0 <= i < |slots| => if Holds(config, slots[i], now) then slots[i] else FREE)
  }

  /** The slots that count as taken at time `now`. */
  function Taken(config: Config, slots: seq<int>, now: int): set<nat> {
    set i: nat | i < |slots| && Holds(config, slots[i], now)
  }

  // ----- The drop curve ------------------------------------------------------------

  /** Percentage of new connections refused when `load` slots are taken. */
  function DropThreshold(config: Config, load: int): int
    requires config.Valid() && config.start < load <= config.max
  {
    (100 - config.rate) * (load - config.start) / (config.max - config.start) + config.rate
  }

  lemma MulMono(a: int, b: int, c: int)
    requires a <= b && 0 <= c
    ensures c * a <= c * b
  {}

  lemma DivUnique(x: int, d: int, q: int)
    requires 0 < d && q * d <= x < (q + 1) * d
    ensures x / d == q
  {
    var p := x / d;
    assert p * d <= x < (p + 1) * d;
    if p < q {
      MulMono(p + 1, q, d);
    } else if p > q {
      MulMono(q + 1, p, d);
    }
  }

  lemma DivMono(a: int, b: int, d: int)
    requires 0 < d && a <= b
    ensures a / d <= b / d
  {
    var p, q := a / d, b / d;
    assert p * d <= a && b < (q + 1) * d;
    if p > q {
      MulMono(q + 1, p, d);
    }
  }

  /** The curve is the straight line from the configured rate at the start load to 100 at full load, rounded
      down. */
  lemma DropIsLinear(config: Config, load: int)
    requires config.Valid() && config.start < load <= config.max
    ensures var p := DropThreshold(config, load) - config.rate;
            p * (config.max - config.start) <= (100 - config.rate) * (load - config.start) < (p + 1) * (config.max - config.start)
  {
    RoundedDown((100 - config.rate) * (load - config.start), config.max - config.start);
  }

  lemma RoundedDown(x: int, d: int)
    requires d > 0
    ensures x / d * d <= x < (x / d + 1) * d
  {}

  /** It starts at the configured rate or above, never exceeds 100, never falls as the load grows, and
      refuses everything at full load. */
  lemma DropCurve(config: Config, load: int, heavier: int)
    requires config.Valid() && config.start < load <= heavier <= config.max
    ensures config.rate <= DropThreshold(config, load) <= DropThreshold(config, heavier) <= 100
    ensures DropThreshold(config, config.max) == 100
  {
    var c, d := 100 - config.rate, config.max - config.start;
    var a, b := load - config.start, heavier - config.start;
    MulMono(0, a, c); MulMono(a, b, c); MulMono(b, d, c);
    DivMono(0, c * a, d); DivMono(c * a, c * b, d); DivMono(c * b, c * d, d);
    DivUnique(c * d, d, c);
    DivUnique(0, d, 0);
  }

  /** Whether the master refuses a connection because of the load; `ratio` is the random draw 0..99. */
  predicate Dropped(config: Config, load: int, ratio: int)
    requires config.Valid() && load <= config.max
  {
    config.start < load && (config.rate == 100 || ratio < DropThreshold(config, load))
  }

  /** Of the hundred draws as many are refused as the curve says. */
  lemma RefusedShare(config: Config, load: int)
    requires config.Valid() && config.start < load <= config.max && config.rate >= 0
    ensures var refused := set ratio: nat | ratio < 100 && Dropped(config, load, ratio); |refused| == DropThreshold(config, load)
  {
    DropCurve(config, load, load);
    var p := DropThreshold(config, load);
    assert config.rate == 100 ==> p == 100;
    assert (set ratio: nat | ratio < 100 && Dropped(config, load, ratio)) == Draws(p);
    DrawsBelow(p);
  }

  predicate Under(ratio: nat, n: nat) {
    ratio < n
  }

  function Draws(n: nat): set<nat> {
    set ratio: nat | ratio < n && Under(ratio, n)
  }

  lemma {:induction false} DrawsBelow(n: nat)
    ensures |Draws(n)| == n
  {
    if n > 0 {
      DrawsBelow(n - 1);
      assert Draws(n) == Draws(n - 1) + {n - 1};
    } else {
      assert Draws(n) == {};
    }
  }

  // ----- The table -----------------------------------------------------------------

  lemma TakenBound(config: Config, slots: seq<int>, now: int)
    ensures |Taken(config, slots, now)| <= |slots|
    ensures |Taken(config, slots, now)| == |slots| <==> forall i :: 0 <= i < |slots| ==> Holds(config, slots[i], now)
  {
    TakenSplit(config, slots, now, |slots|);
  }

  ghost function TakenBelow(config: Config, slots: seq<int>, now: int, n: nat): set<nat>
    requires n <= |slots|
  {
    set i: nat | i < n && Holds(config, slots[i], now)
  }

  lemma OneMoreBelow(config: Config, slots: seq<int>, now: int, n: nat)
    requires n < |slots|
    ensures TakenBelow(config, slots, now, n + 1)
            == if Holds(config, slots[n], now) then TakenBelow(config, slots, now, n) + {n} else TakenBelow(config, slots, now, n)
    ensures n !in TakenBelow(config, slots, now, n)
  {}

  lemma NoneBelow(config: Config, slots: seq<int>, now: int)
    ensures TakenBelow(config, slots, now, 0) == {} && TakenBelow(config, slots, now, |slots|) == Taken(config, slots, now)
  {}

  lemma TakenSplit(config: Config, slots: seq<int>, now: int, n: nat)
    requires n <= |slots|
    ensures var s := set i: nat | i < n && Holds(config, slots[i], now);
            |s| <= n && (|s| == n <==> forall i :: 0 <= i < n ==> Holds(config, slots[i], now))
  {
    var s := set i: nat | i < n && Holds(config, slots[i], now);
    if n == 0 {
      assert s == {};
    } else {
      var t := set i: nat | i < n - 1 && Holds(config, slots[i], now);
      TakenSplit(config, slots, now, n - 1);
      assert s == if Holds(config, slots[n - 1], now) then t + {n - 1} else t;
    }
  }

  /** The first slot a claim at time `now` may take, or -1. */
  ghost predicate FirstClaimable(config: Config, slots: seq<int>, now: int, i: int) {
    if i == -1 then forall j :: 0 <= j < |slots| ==> now - config.grace <= slots[j]
    else && 0 <= i < |slots| && now - config.grace > slots[i]
         && forall j :: 0 <= j < i ==> now - config.grace <= slots[j]
  }

  /** What a claim does to the table: sweep at `swept`, then maybe refuse, else stamp the first
      claimable slot with `now`, the time read before the sweep. */
  ghost predicate Claims(config: Config, before: seq<int>, now: int, swept: int, ratio: int, after: seq<int>, i: int)
    requires config.Valid() && |before| == config.max
  {
    var slots := Swept(config, before, swept);
    var load := |Taken(config, before, swept)|;
    TakenBound(config, before, swept);
    if Dropped(config, load, ratio) then i == -1 && after == slots
    else FirstClaimable(config, slots, now, i) && after == if i == -1 then slots else slots[i := now]
  }

  class SlotTable {
    const config: Config
    const timestamps: array<int>
    var current: int

    ghost predicate Valid()
      reads this
    {
      config.Valid() && timestamps.Length == config.max
    }

    constructor (config: Config)
      requires config.Valid()
      ensures Valid() && fresh(timestamps) && this.config == config
      ensures forall i :: 0 <= i < config.max ==> timestamps[i] == FREE
    {
      this.config := config;
      timestamps := new int[config.max](_ => FREE);
      current := 0;
    }

    method CurrentEmbryonics(now: int)
      requires Valid()
      modifies this`current, timestamps
      ensures timestamps[..] == Swept(config, old(timestamps[..]), now)
      ensures current == |Taken(config, old(timestamps[..]), now)|
      ensures current <= config.max
    {
      hide TakenBelow, Taken;
      current := 0;
      ghost var was := timestamps[..];
      ghost var counted := TakenBelow(config, was, now, 0);
      NoneBelow(config, was, now);
      for i := 0 to timestamps.Length
        invariant counted == TakenBelow(config, was, now, i)
        invariant current == |counted|
        invariant forall k :: 0 <= k < i ==> timestamps[k] == Swept(config, was, now)[k]
        invariant forall k :: i <= k < timestamps.Length ==> timestamps[k] == was[k]
      {
        OneMoreBelow(config, was, now, i);
        if now - config.grace < timestamps[i] {
          current := current + 1;
          counted := counted + {i};
        } else {
          timestamps[i] := FREE;
        }
      }
      assert timestamps[..] == Swept(config, was, now);
      TakenBound(config, was, now);
    }

    method NewSlot(now: int, sweepTime: int, ratio: int) returns (id: int)
      requires Valid()
      modifies this`current, timestamps
      ensures Claims(config, old(timestamps[..]), now, sweepTime, ratio, timestamps[..], id)
      ensures current == |Taken(config, old(timestamps[..]), sweepTime)| + if id == -1 then 0 else 1
    {
      CurrentEmbryonics(sweepTime);
      if current > config.start {
        if config.rate == 100 {
          return -1;
        }
        var p := 100 - config.rate;
        p := p * (current - config.start);
        p := p / (config.max - config.start);
        p := p + config.rate;
        if ratio < p {
          return -1;
        }
      }
      var i := 0;
      while i < config.max
        invariant 0 <= i <= config.max
        invariant timestamps[..] == Swept(config, old(timestamps[..]), sweepTime)
        invariant current == |Taken(config, old(timestamps[..]), sweepTime)|
        invariant forall j :: 0 <= j < i ==> now - config.grace <= timestamps[j]
      {
        if now - config.grace > timestamps[i] {
          timestamps[i] := now;
          current := current + 1;
          return i;
        }
        i := i + 1;
      }
      return -1;
    }

    /** Called in the child that was given `slotId`; without a lease (-1) nothing happens. */
    method FreeSlot(slotId: int)
      requires Valid() && -1 <= slotId < config.max
      modifies timestamps
      ensures timestamps[..] == if slotId == -1 then old(timestamps[..]) else old(timestamps[..])[slotId := FREE]
    {
      if slotId > -1 {
        timestamps[slotId] := FREE;
      }
    }
  }

  // ----- Whole runs ----------------------------------------------------------------

  /** One grant: slot, timestamp, when it was granted, and whether its child has freed it. */
  datatype Lease = Lease(slot: nat, stamp: int, granted: int, released: bool)

  datatype State = State(slots: seq<int>, clock: int, leases: seq<Lease>)

  /** What may happen to the table: the master handles a connection, the master sweeps, a child frees. */
  datatype Event = Accept(now: int, swept: int, ratio: int) | Sweep(swept: int) | Free(at: int, lease: nat)

  /** The lease is neither freed nor past its grace time. */
  predicate Live(config: Config, lease: Lease, clock: int) {
    !lease.released && Holds(config, lease.stamp, clock)
  }

  /** The state after the child of lease `k` has freed its slot: the code looks at nothing but the slot's
      number, so the slot is cleared whoever holds it by then. */
  function Freed(s: State, k: nat, at: int): State
    requires k < |s.leases| && s.leases[k].slot < |s.slots|
  {
    State(s.slots[s.leases[k].slot := FREE], at, s.leases[k := s.leases[k].(released := true)])
  }

  /** One step of a run: the clock never goes back; any child frees at any time, in or after its lease. */
  ghost predicate Step(config: Config, s: State, e: Event, t: State)
    requires config.Valid() && |s.slots| == config.max
  {
    match e
    case Accept(now, swept, ratio) =>
      && s.clock <= now <= swept == t.clock
      && |t.slots| == |s.slots|
      && exists i :: Claims(config, s.slots, now, swept, ratio, t.slots, i) &&
                     t.leases == if i < 0 then s.leases else s.leases + [Lease(i, now, swept, false)]
    case Sweep(swept) =>
      s.clock <= swept == t.clock && t.slots == Swept(config, s.slots, swept) && t.leases == s.leases
    case Free(at, k) =>
      s.clock <= at && k < |s.leases| && s.leases[k].slot < |s.slots| && t == Freed(s, k, at)
  }

  /** A run from the empty table, started later than one grace time after the epoch. */
  ghost predicate Run(config: Config, states: seq<State>, events: seq<Event>)
    requires config.Valid()
  {
    && |states| == |events| + 1
    && (forall n :: 0 <= n < |states| ==> |states[n].slots| == config.max)
    && states[0].leases == [] && states[0].clock > config.grace
    && (forall i :: 0 <= i < config.max ==> states[0].slots[i] == FREE)
    && (forall n :: 0 <= n < |events| ==> Step(config, states[n], events[n], states[n + 1]))
  }

  /** No lease was granted on a slot whose earlier lease was still live. */
  ghost predicate NoOverlap(config: Config, leases: seq<Lease>) {
    forall j, k :: 0 <= j < k < |leases| && leases[j].slot == leases[k].slot
                   ==> leases[j].released || !Holds(config, leases[j].stamp, leases[k].granted)
  }

  ghost predicate Invariant(config: Config, s: State) {
    && s.clock > config.grace
    && (forall k :: 0 <= k < |s.leases| ==> s.leases[k].slot < |s.slots| && s.leases[k].granted <= s.clock)
    && (forall k :: 0 <= k < |s.leases| && Live(config, s.leases[k], s.clock)
                    ==> s.slots[s.leases[k].slot] == s.leases[k].stamp)
    && (forall i :: 0 <= i < |s.slots| && Holds(config, s.slots[i], s.clock)
                    ==> exists k :: 0 <= k < |s.leases| && s.leases[k].slot == i && Live(config, s.leases[k], s.clock))
    && NoOverlap(config, s.leases)
  }

  lemma LiveLeasesDiffer(config: Config, s: State, j: nat, k: nat)
    requires Invariant(config, s) && j < k < |s.leases|
    requires Live(config, s.leases[j], s.clock) && Live(config, s.leases[k], s.clock)
    ensures s.leases[j].slot != s.leases[k].slot
  {}

  lemma SweepKeeps(config: Config, s: State, at: int)
    requires config.Valid() && |s.slots| == config.max && Invariant(config, s) && s.clock <= at
    ensures Invariant(config, State(Swept(config, s.slots, at), at, s.leases))
  {
    var t := State(Swept(config, s.slots, at), at, s.leases);
    forall i | 0 <= i < |t.slots| && Holds(config, t.slots[i], at)
      ensures exists k :: 0 <= k < |t.leases| && t.leases[k].slot == i && Live(config, t.leases[k], at)
    {
      assert Holds(config, s.slots[i], s.clock);
      var k :| 0 <= k < |s.leases| && s.leases[k].slot == i && Live(config, s.leases[k], s.clock);
      assert Live(config, t.leases[k], at);
    }
  }

  lemma GrantKeeps(config: Config, s: State, now: int, i: nat)
    requires config.Valid() && |s.slots| == config.max && Invariant(config, s)
    requires now <= s.clock && i < config.max && now - config.grace > s.slots[i]
    ensures Invariant(config, State(s.slots[i := now], s.clock, s.leases + [Lease(i, now, s.clock, false)]))
  {
    var lease := Lease(i, now, s.clock, false);
    var t := State(s.slots[i := now], s.clock, s.leases + [lease]);
    forall m | 0 <= m < |t.slots| && Holds(config, t.slots[m], t.clock)
      ensures exists k :: 0 <= k < |t.leases| && t.leases[k].slot == m && Live(config, t.leases[k], t.clock)
    {
      if m == i {
        assert t.leases[|s.leases|] == lease;
      } else {
        var k :| 0 <= k < |s.leases| && s.leases[k].slot == m && Live(config, s.leases[k], s.clock);
        assert t.leases[k] == s.leases[k];
      }
    }
  }

  /** No other child holds a live lease on the slot that is freed. */
  ghost predicate Timely(config: Config, s: State, k: nat, at: int)
    requires k < |s.leases|
  {
    forall l :: 0 <= l < |s.leases| && l != k && s.leases[l].slot == s.leases[k].slot ==> !Live(config, s.leases[l], at)
  }

  ghost predicate AllTimely(config: Config, states: seq<State>, events: seq<Event>, n: nat)
    requires n <= |events| < |states|
  {
    forall m :: 0 <= m < n && events[m].Free? && events[m].lease < |states[m].leases|
                ==> Timely(config, states[m], events[m].lease, events[m].at)
  }

  /** A free, in or after its lease, keeps the invariant exactly when nobody else holds the slot. */
  lemma FreeKeepsIff(config: Config, s: State, k: nat, at: int)
    requires config.Valid() && |s.slots| == config.max && Invariant(config, s) && s.clock <= at
    requires k < |s.leases|
    ensures Invariant(config, Freed(s, k, at)) <==> Timely(config, s, k, at)
  {
    var t := Freed(s, k, at);
    if Timely(config, s, k, at) {
      forall m | 0 <= m < |t.slots| && Holds(config, t.slots[m], at)
        ensures exists l :: 0 <= l < |t.leases| && t.leases[l].slot == m && Live(config, t.leases[l], at)
      {
        assert Holds(config, s.slots[m], s.clock);
        var l :| 0 <= l < |s.leases| && s.leases[l].slot == m && Live(config, s.leases[l], s.clock);
        assert l != k && t.leases[l] == s.leases[l];
      }
    } else {
      var l :| 0 <= l < |s.leases| && l != k && s.leases[l].slot == s.leases[k].slot && Live(config, s.leases[l], at);
      assert t.leases[l] == s.leases[l] && t.slots[t.leases[l].slot] == FREE != t.leases[l].stamp;
    }
  }

  /** What the code could look at before it clears the slot: it still holds the child's own timestamp,
      or one past the grace time. */
  predicate MayFree(config: Config, s: State, k: nat, at: int) {
    k < |s.leases| && s.leases[k].slot < |s.slots| &&
    (s.slots[s.leases[k].slot] == s.leases[k].stamp || !Holds(config, s.slots[s.leases[k].slot], at))
  }

  /** For a child that has not freed yet this look decides whether it is alone on the slot. A live lease
      always finds its own timestamp. */
  lemma MayFreeIffTimely(config: Config, s: State, k: nat, at: int)
    requires config.Valid() && Invariant(config, s) && s.clock <= at && k < |s.leases| && !s.leases[k].released
    ensures MayFree(config, s, k, at) <==> Timely(config, s, k, at)
    ensures Live(config, s.leases[k], at) ==> s.slots[s.leases[k].slot] == s.leases[k].stamp
  {
    var slot := s.leases[k].slot;
    if s.slots[slot] == s.leases[k].stamp {
      forall l | 0 <= l < |s.leases| && l != k && s.leases[l].slot == slot
        ensures !Live(config, s.leases[l], at)
      {
        if l < k {
          assert s.leases[l].released || !Holds(config, s.leases[l].stamp, s.leases[k].granted);
        } else {
          assert !Holds(config, s.leases[k].stamp, s.leases[l].granted);
        }
      }
    } else if Holds(config, s.slots[slot], at) {
      var l :| 0 <= l < |s.leases| && s.leases[l].slot == slot && Live(config, s.leases[l], s.clock);
      assert Live(config, s.leases[l], at);
    }
  }

  lemma StepKeeps(config: Config, s: State, e: Event, t: State)
    requires config.Valid() && |s.slots| == config.max
    requires Invariant(config, s) && Step(config, s, e, t)
    ensures Invariant(config, t) <==> (e.Free? ==> Timely(config, s, e.lease, e.at))
  {
    match e
    case Accept(now, swept, ratio) =>
      var i :| Claims(config, s.slots, now, swept, ratio, t.slots, i) &&
               t.leases == if i < 0 then s.leases else s.leases + [Lease(i, now, swept, false)];
      SweepKeeps(config, s, swept);
      if i >= 0 {
        GrantKeeps(config, State(Swept(config, s.slots, swept), swept, s.leases), now, i);
      }
    case Sweep(swept) =>
      SweepKeeps(config, s, swept);
    case Free(at, k) =>
      FreeKeepsIff(config, s, k, at);
  }

  /** Over every run of claims, sweeps and frees at any time: the invariant holds all along exactly when
      no child ever frees a slot on which another one holds a live lease. */
  lemma {:induction false} InvariantIff(config: Config, states: seq<State>, events: seq<Event>, n: nat)
    requires config.Valid() && Run(config, states, events) && n <= |events|
    ensures (forall m :: 0 <= m <= n ==> Invariant(config, states[m])) <==> AllTimely(config, states, events, n)
  {
    if n > 0 {
      InvariantIff(config, states, events, n - 1);
      if Invariant(config, states[n - 1]) {
        StepKeeps(config, states[n - 1], events[n - 1], states[n]);
      }
      assert (forall m :: 0 <= m <= n ==> Invariant(config, states[m]))
             <==> (forall m :: 0 <= m <= n - 1 ==> Invariant(config, states[m])) && Invariant(config, states[n]);
    }
  }

  /** While that is so, no slot is granted while an earlier lease of it is live, and no two live leases
      share a slot. */
  lemma LeasesAreExclusive(config: Config, states: seq<State>, events: seq<Event>, n: nat)
    requires config.Valid() && Run(config, states, events) && n <= |events| && AllTimely(config, states, events, n)
    ensures NoOverlap(config, states[n].leases)
    ensures forall j, k :: 0 <= j < k < |states[n].leases| &&
                           Live(config, states[n].leases[j], states[n].clock) &&
                           Live(config, states[n].leases[k], states[n].clock)
                           ==> states[n].leases[j].slot != states[n].leases[k].slot
  {
    InvariantIff(config, states, events, n);
  }

  /** Every child frees at most once. */
  ghost predicate FreesOnce(states: seq<State>, events: seq<Event>, n: nat)
    requires n <= |events| < |states|
  {
    forall m :: 0 <= m < n && events[m].Free? && events[m].lease < |states[m].leases|
                ==> !states[m].leases[events[m].lease].released
  }

  ghost predicate AllMayFree(config: Config, states: seq<State>, events: seq<Event>, n: nat)
    requires n <= |events| < |states|
  {
    forall m :: 0 <= m < n && events[m].Free? ==> MayFree(config, states[m], events[m].lease, events[m].at)
  }

  /** The look decides over whole runs: the leases are kept exactly when every child that frees finds its
      own timestamp in the slot, or none that still holds. */
  lemma {:induction false} GuardIsExact(config: Config, states: seq<State>, events: seq<Event>, n: nat)
    requires config.Valid() && Run(config, states, events) && n <= |events| && FreesOnce(states, events, n)
    ensures AllMayFree(config, states, events, n) <==> AllTimely(config, states, events, n)
  {
    if n > 0 {
      GuardIsExact(config, states, events, n - 1);
      InvariantIff(config, states, events, n - 1);
      assert Step(config, states[n - 1], events[n - 1], states[n - 1 + 1]);
      if events[n - 1].Free? && AllTimely(config, states, events, n - 1) {
        MayFreeIffTimely(config, states[n - 1], events[n - 1].lease, events[n - 1].at);
      }
    }
  }

  /** The code looks at no timestamp, and a child may free after its grace time: it frees the slot of its
      successor, the next connection gets that slot too, and two live leases share it. */
  lemma LateFree() returns (config: Config, states: seq<State>, events: seq<Event>)
    ensures config.Valid() && Run(config, states, events) && |events| == 4
    ensures var s := states[4];
            && |s.leases| == 3 && s.leases[1].slot == s.leases[2].slot
            && Live(config, s.leases[1], s.clock) && Live(config, s.leases[2], s.clock)
  {
    config := Config(1, 1, 1, 10);
    var l0, l1, l2 := Lease(0, 11, 11, false), Lease(0, 22, 22, false), Lease(0, 24, 24, false);
    var s0, s1 := State([FREE], 11, []), State([11], 11, [l0]);
    var s2 := State([22], 22, [l0, l1]);
    var s3 := Freed(s2, 0, 23);
    var s4 := State([24], 24, s3.leases + [l2]);
    states := [s0, s1, s2, s3, s4];
    events := [Accept(11, 11, 0), Accept(22, 22, 0), Free(23, 0), Accept(24, 24, 0)];
    ClaimsAlone(config, [FREE], 11);
    ClaimsAlone(config, [11], 22);
    ClaimsAlone(config, [FREE], 24);
    assert Step(config, s0, events[0], s1) && Step(config, s1, events[1], s2);
    assert Step(config, s2, events[2], s3) && Step(config, s3, events[3], s4);
  }

  lemma ClaimsAlone(config: Config, slots: seq<int>, now: int)
    requires config == Config(1, 1, 1, 10) && |slots| == 1 && now > 10 && !Holds(config, slots[0], now)
    ensures Claims(config, slots, now, now, 0, [now], 0)
  {
    assert Swept(config, slots, now) == [FREE];
    assert Taken(config, slots, now) == {};
  }

  /** Then the counter is exact too: the slots counted as taken are those of the live leases, hence never
      more than the configured maximum. */
  lemma LoadIsExact(config: Config, states: seq<State>, events: seq<Event>, n: nat)
    requires config.Valid() && Run(config, states, events) && n <= |events| && AllTimely(config, states, events, n)
    ensures var s := states[n];
            && Taken(config, s.slots, s.clock)
               == (set k: nat | k < |s.leases| && Live(config, s.leases[k], s.clock) :: s.leases[k].slot)
            && |Taken(config, s.slots, s.clock)| == |LiveLeases(config, s)| <= config.max
  {
    InvariantIff(config, states, events, n);
    LeasesAreExclusive(config, states, events, n);
    TakenBound(config, states[n].slots, states[n].clock);
    var live := LiveLeases(config, states[n]);
    SlotsOfDistinct(states[n].leases, live);
    assert (set k | k in live :: states[n].leases[k].slot) == Taken(config, states[n].slots, states[n].clock);
  }

  ghost function LiveLeases(config: Config, s: State): set<nat> {
    set k: nat | k < |s.leases| && Live(config, s.leases[k], s.clock)
  }

  lemma SlotsOfDistinct(leases: seq<Lease>, ks: set<nat>)
    requires forall k :: k in ks ==> k < |leases|
    requires forall j, k :: j in ks && k in ks && j != k ==> leases[j].slot != leases[k].slot
    ensures |set k | k in ks :: leases[k].slot| == |ks|
  {
    var image := set k | k in ks :: leases[k].slot;
    if ks == {} {
      assert image == {};
    } else {
      var k :| k in ks;
      SlotsOfDistinct(leases, ks - {k});
      assert image == (set j | j in ks - {k} :: leases[j].slot) + {leases[k].slot};
    }
  }

  /** A claim is refused exactly when the curve drops it or every slot is taken: below full load
      and outside the drop range it always gets a slot. */
  lemma RefusedIff(config: Config, before: seq<int>, now: int, swept: int, ratio: int, after: seq<int>, i: int)
    requires config.Valid() && |before| == config.max && config.grace < now <= swept
    requires Claims(config, before, now, swept, ratio, after, i)
    ensures |Taken(config, before, swept)| <= config.max
    ensures i == -1 <==> Dropped(config, |Taken(config, before, swept)|, ratio)
                         || |Taken(config, before, swept)| == config.max
    ensures |Taken(config, before, swept)| <= config.start < config.max ==> i >= 0
    ensures i >= 0 ==> !Holds(config, before[i], swept)
  {
    TakenBound(config, before, swept);
    var slots := Swept(config, before, swept);
    if !Dropped(config, |Taken(config, before, swept)|, ratio) && i == -1 {
      assert forall j :: 0 <= j < |before| ==> now - config.grace <= slots[j] && Holds(config, before[j], swept);
    }
  }
}
