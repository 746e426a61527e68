/**
 The run-queue latency histogram: the probe (ebpf/runqlat.bpf.c) that fills
 log2 slots, and the exporter (internal/obsd/obsd.go) that totals them.
 */
module Histogram {
  import opened Common

  const MAX_SLOTS: nat := 20
  const MAX_ENTRIES: nat := 10240

  // ------------------------------------------------------------------- slots

  function Log2(v: nat): nat {
    if v <= 1 then 0 else 1 + Log2(v / 2)
  }

  lemma {:induction false} Log2Bounds(v: nat)
    ensures v >= 1 ==> Pow2(Log2(v)) <= v
    ensures v < Pow2(Log2(v) + 1)
  {
    if v > 1 {
      Log2Bounds(v / 2);
      assert v == 2 * (v / 2) + v % 2;
    }
  }

  /** log2u: shift until nothing is left. */
  method Log2u(v0: nat) returns (r: nat)
    ensures Pow2(r) <= (if v0 > 1 then v0 else 1) && v0 < Pow2(r + 1)
    ensures r == Log2(v0)
  {
    var v: nat := v0 / 2;
    r := 0;
    while v != 0
      invariant Log2(v0) == r + (if v == 0 then 0 else 1 + Log2(v))
      decreases v
    {
      v := v / 2;
      r := r + 1;
    }
    Log2Bounds(v0);
  }

  /** The slot of a measured latency. */
  function SlotOf(d: nat): (i: nat)
    ensures i < MAX_SLOTS
  {
    if Log2(d) >= MAX_SLOTS then MAX_SLOTS - 1 else Log2(d)
  }

  lemma {:induction false} Pow2Monotone(a: nat, b: nat)
    requires a <= b
    ensures Pow2(a) <= Pow2(b)
  {
    if a < b {
      Pow2Monotone(a, b - 1);
    }
  }

  /** Below the last slot, a latency lies in slots 0..i exactly when it is below 2^(i+1). */
  lemma SlotBelow(d: nat, i: nat)
    requires i < MAX_SLOTS - 1
    ensures SlotOf(d) <= i <==> d < Pow2(i + 1)
  {
    Log2Bounds(d);
    if Log2(d) <= i {
      Pow2Monotone(Log2(d) + 1, i + 1);
    } else {
      Pow2Monotone(i + 1, Log2(d));
    }
  }

  // ------------------------------------------------------------------- probe

  datatype Event = Wakeup(pid: nat, ts: nat) | Switch(next: nat, now: nat)

  datatype Probe = Probe(start: map<nat, nat>, slots: seq<nat>)

  function Zeros(n: nat): (s: seq<nat>)
    ensures |s| == n && forall i :: 0 <= i < n ==> s[i] == 0
  {
    seq(n, i => 0)
  }

  const IDLE: Probe := Probe(map[], Zeros(20))

  /** A 64-bit counter. */
  function Wrap(n: nat): (r: nat)
    ensures n < 0x1_0000_0000_0000_0000 ==> r == n
  {
    n % 0x1_0000_0000_0000_0000
  }

  /** The latency, in microseconds, that an event measures in this state. */
  function Measured(start: map<nat, nat>, e: Event): Option<nat> {
    match e
    case Wakeup(_, _) => None
    case Switch(p, now) => if p != 0 && p in start && now > start[p] then Some((now - start[p]) / 1000) else None
  }

  /** The stamp map after an event; a full map takes no new process. */
  function Stamped(start: map<nat, nat>, e: Event): map<nat, nat> {
    match e
    case Wakeup(p, ts) => if p == 0 || (p !in start && |start| >= MAX_ENTRIES) then start else start[p := ts]
    case Switch(p, _) => start - {p}
  }

  function Handle(st: Probe, e: Event): Probe
    requires |st.slots| == MAX_SLOTS
  {
    var slots :=
      match Measured(st.start, e)
      case None => st.slots
      case Some(d) => st.slots[SlotOf(d) := Wrap(st.slots[SlotOf(d)] + 1)];
    Probe(Stamped(st.start, e), slots)
  }

  /** The two handlers, updating the maps in place. */
  class Maps {
    var start: map<nat, nat>
    var slots: seq<nat>

    ghost function View(): Probe
      reads this
    {
      Probe(start, slots)
    }

    constructor ()
      ensures View() == IDLE
    {
      start, slots := map[], Zeros(20);
    }

    method HandleWakeup(pid: nat, ts: nat)
      requires |slots| == MAX_SLOTS && 0 !in start
      modifies this
      ensures View() == Handle(old(View()), Wakeup(pid, ts)) && |slots| == MAX_SLOTS && 0 !in start
    {
      if pid == 0 {
        return;
      }
      if pid in start || |start| < MAX_ENTRIES {
        start := start[pid := ts];
      }
    }

    method HandleSwitch(next: nat, now: nat)
      requires |slots| == MAX_SLOTS && 0 !in start
      modifies this
      ensures View() == Handle(old(View()), Switch(next, now)) && |slots| == MAX_SLOTS && 0 !in start
    {
      if next == 0 || next !in start {
        assert start - {next} == start;
        return;
      }
      if now > start[next] {
        var delta := (now - start[next]) / 1000;
        var slot := Log2u(delta);
        if slot >= MAX_SLOTS {
          slot := MAX_SLOTS - 1;
        }
        slots := slots[slot := Wrap(slots[slot] + 1)];
      }
      start := start - {next};
    }
  }

  function StartAfter(es: seq<Event>): map<nat, nat> {
    if es == [] then map[] else Stamped(StartAfter(es[..|es| - 1]), es[|es| - 1])
  }

  function SlotsAfter(es: seq<Event>): (s: seq<nat>)
    ensures |s| == MAX_SLOTS
  {
    if es == [] then IDLE.slots
    else
      var st := Probe(StartAfter(es[..|es| - 1]), SlotsAfter(es[..|es| - 1]));
      Handle(st, es[|es| - 1]).slots
  }

  /** The plain list of latencies measured over a run. */
  function Samples(es: seq<Event>): seq<nat> {
    if es == [] then []
    else
      var init := es[..|es| - 1];
      match Measured(StartAfter(init), es[|es| - 1])
      case None => Samples(init)
      case Some(d) => Samples(init) + [d]
  }

  /** How many of the samples lie in slots lo..hi. */
  function CountIn(ds: seq<nat>, lo: nat, hi: nat): nat {
    if ds == [] then 0
    else CountIn(ds[..|ds| - 1], lo, hi) + (if lo <= SlotOf(ds[|ds| - 1]) <= hi then 1 else 0)
  }

  function CountBelow(ds: seq<nat>, bound: nat): nat {
    if ds == [] then 0 else CountBelow(ds[..|ds| - 1], bound) + (if ds[|ds| - 1] < bound then 1 else 0)
  }

  /** Counting one more sample. */
  lemma SlotStep(slots: seq<nat>, ds: seq<nat>, d: nat, i: nat)
    requires |slots| == MAX_SLOTS && i < MAX_SLOTS && slots[i] == Wrap(CountIn(ds, i, i))
    ensures slots[SlotOf(d) := Wrap(slots[SlotOf(d)] + 1)][i] == Wrap(CountIn(ds + [d], i, i))
  {
  }

  /** One more event: the slots and the samples change together or not at all. */
  lemma LastEvent(es: seq<Event>)
    requires es != []
    ensures var init := es[..|es| - 1];
      match Measured(StartAfter(init), es[|es| - 1])
      case None => SlotsAfter(es) == SlotsAfter(init) && Samples(es) == Samples(init)
      case Some(d) =>
        && SlotsAfter(es) == SlotsAfter(init)[SlotOf(d) := Wrap(SlotsAfter(init)[SlotOf(d)] + 1)]
        && Samples(es) == Samples(init) + [d]
  {
  }

  /** Over every run, slot i counts exactly the samples that belong in it (as a 64-bit counter). */
  lemma {:induction false} SlotsCountSamples(es: seq<Event>, i: nat)
    requires i < MAX_SLOTS
    ensures SlotsAfter(es)[i] == Wrap(CountIn(Samples(es), i, i))
    decreases |es|
  {
    if es != [] {
      var init, e := es[..|es| - 1], es[|es| - 1];
      SlotsCountSamples(init, i);
      LastEvent(es);
      match Measured(StartAfter(init), e) {
        case None =>
        case Some(d) => SlotStep(SlotsAfter(init), Samples(init), d, i);
      }
    }
  }

  // ------------------------------------------------- what counts as a sample

  /** The latest stamp of a process not consumed by a switch to it. */
  function LastStamp(es: seq<Event>, p: nat): Option<nat> {
    if es == [] then None
    else
      match es[|es| - 1]
      case Wakeup(q, ts) => if q == p then Some(ts) else LastStamp(es[..|es| - 1], p)
      case Switch(q, _) => if q == p then None else LastStamp(es[..|es| - 1], p)
  }

  /** The process's latest wakeup, since the last switch to it, met a full map that did not hold it. */
  predicate Refused(es: seq<Event>, p: nat) {
    es != [] &&
    var init := es[..|es| - 1];
    match es[|es| - 1]
    case Wakeup(q, _) => if q == p then p !in StartAfter(init) && |StartAfter(init)| >= MAX_ENTRIES else Refused(init, p)
    case Switch(q, _) => q != p && Refused(init, p)
  }

  /**
   Over every run the stamp map holds exactly the last unconsumed stamp of every
   process but the idle one and those whose stamp a full map refused, and it never
   grows past its capacity.
   */
  lemma {:induction false} StartIsLastStamp(es: seq<Event>, p: nat)
    ensures |StartAfter(es)| <= MAX_ENTRIES
    ensures p in StartAfter(es) <==> p != 0 && LastStamp(es, p).Some? && !Refused(es, p)
    ensures p in StartAfter(es) ==> LastStamp(es, p) == Some(StartAfter(es)[p])
    decreases |es|
  {
    if es != [] {
      StartIsLastStamp(es[..|es| - 1], p);
      StampedSize(StartAfter(es[..|es| - 1]), es[|es| - 1]);
    }
  }

  lemma StampedSize(start: map<nat, nat>, e: Event)
    requires |start| <= MAX_ENTRIES
    ensures |Stamped(start, e)| <= MAX_ENTRIES
  {
    match e {
      case Wakeup(p, ts) =>
        assert start[p := ts].Keys == start.Keys + {p};
      case Switch(p, _) =>
        SubsetSize((start - {p}).Keys, start.Keys);
    }
  }

  function Pids(es: seq<Event>): set<nat> {
    set i | 0 <= i < |es| :: match es[i] case Wakeup(p, _) => p case Switch(p, _) => p
  }

  lemma PidsSnoc(es: seq<Event>)
    requires es != []
    ensures var e := es[|es| - 1];
      Pids(es) == Pids(es[..|es| - 1]) + {match e case Wakeup(p, _) => p case Switch(p, _) => p}
  {
  }

  lemma {:induction false} StampedTookPart(es: seq<Event>)
    ensures StartAfter(es).Keys <= Pids(es)
    decreases |es|
  {
    if es != [] {
      StampedTookPart(es[..|es| - 1]);
      PidsSnoc(es);
    }
  }

  /** As long as no more than MAX_ENTRIES processes take part, no stamp is refused. */
  lemma {:induction false} FewNeverRefused(es: seq<Event>, p: nat)
    requires |Pids(es)| <= MAX_ENTRIES
    ensures !Refused(es, p)
    decreases |es|
  {
    if es != [] {
      var init := es[..|es| - 1];
      PidsSnoc(es);
      SubsetSize(Pids(init), Pids(es));
      FewNeverRefused(init, p);
      StampedTookPart(init);
      if p !in StartAfter(init) && p in Pids(es) {
        SubsetSize(StartAfter(init).Keys + {p}, Pids(es));
      }
    }
  }

  /**
   The samples spelled out, over every run: a switch measures the time since the
   process's last unconsumed wakeup unless a full map refused it, and nothing else
   adds a sample.
   */
  lemma SampleMeaning(es: seq<Event>, p: nat, now: nat)
    ensures Samples(es + [Switch(p, now)]) ==
      if p != 0 && !Refused(es, p) && LastStamp(es, p).Some? && now > LastStamp(es, p).value
      then Samples(es) + [(now - LastStamp(es, p).value) / 1000]
      else Samples(es)
    ensures forall ts :: Samples(es + [Wakeup(p, ts)]) == Samples(es)
  {
    StartIsLastStamp(es, p);
    assert (es + [Switch(p, now)])[..|es|] == es;
    forall ts
      ensures Samples(es + [Wakeup(p, ts)]) == Samples(es)
    {
      assert (es + [Wakeup(p, ts)])[..|es|] == es;
    }
  }

  // ---------------------------------------------------------------- exporter

  function Sum(slots: seq<nat>): nat {
    if slots == [] then 0 else Sum(slots[..|slots| - 1]) + slots[|slots| - 1]
  }

  /** GetRunQueueLatency's total. */
  method TotalCount(slots: seq<nat>) returns (total: nat)
    ensures total == Wrap(Sum(slots))
  {
    total := 0;
    for i := 0 to |slots|
      invariant total == Wrap(Sum(slots[..i]))
    {
      assert slots[..i + 1][..i] == slots[..i];
      WrapAdd(Sum(slots[..i]), slots[i]);
      total := Wrap(total + slots[i]);
    }
    assert slots[..|slots|] == slots;
  }

  lemma WrapAdd(a: nat, b: nat)
    ensures Wrap(Wrap(a) + b) == Wrap(a + b)
  {
  }

  /** The `le` label of an exported bucket. */
  datatype Label = AtMost(bound: nat) | Infinite

  datatype Bucket = Bucket(le: Label, count: nat)

  /** The label printed for bucket `i` of `n`. */
  function LabelOf(i: nat, n: nat): Label {
    if i + 1 == n then Infinite else AtMost(Pow2(i))
  }

  /** The bucket loop of ExportPrometheusMetrics. */
  method CumulativeBuckets(slots: seq<nat>) returns (buckets: seq<Bucket>)
    ensures |buckets| == |slots|
    ensures forall i :: 0 <= i < |slots| ==> buckets[i] == Bucket(LabelOf(i, |slots|), Wrap(Sum(slots[..i + 1])))
  {
    buckets := [];
    var cumulative, bound := 0, 1;
    for i := 0 to |slots|
      invariant |buckets| == i && cumulative == Wrap(Sum(slots[..i])) && bound == Pow2(i)
      invariant forall j :: 0 <= j < i ==> buckets[j] == Bucket(LabelOf(j, |slots|), Wrap(Sum(slots[..j + 1])))
    {
      SumLast(slots, i);
      WrapAdd(Sum(slots[..i]), slots[i]);
      cumulative := Wrap(cumulative + slots[i]);
      var le := AtMost(bound);
      if i == |slots| - 1 {
        le := Infinite;
      }
      buckets := buckets + [Bucket(le, cumulative)];
      bound := 2 * bound;
    }
  }

  lemma {:induction false} CountSplits(ds: seq<nat>, i: nat)
    ensures CountIn(ds, 0, i + 1) == CountIn(ds, 0, i) + CountIn(ds, i + 1, i + 1)
  {
    if ds != [] {
      CountSplits(ds[..|ds| - 1], i);
    }
  }

  lemma SumCounts(es: seq<Event>, i: nat)
    requires i < MAX_SLOTS
    ensures Wrap(Sum(SlotsAfter(es)[..i + 1])) == Wrap(CountIn(Samples(es), 0, i))
  {
    forall j | 0 <= j < MAX_SLOTS
      ensures SlotsAfter(es)[j] == Wrap(CountIn(Samples(es), j, j))
    {
      SlotsCountSamples(es, j);
    }
    SumOfCounts(SlotsAfter(es), Samples(es), i);
  }

  lemma {:induction false} SumOfCounts(s: seq<nat>, ds: seq<nat>, i: nat)
    requires i < |s| && forall j :: 0 <= j < |s| ==> s[j] == Wrap(CountIn(ds, j, j))
    ensures Wrap(Sum(s[..i + 1])) == Wrap(CountIn(ds, 0, i))
    decreases i
  {
    SumLast(s, i);
    if i == 0 {
      assert s[..0] == [];
    } else {
      SumOfCounts(s, ds, i - 1);
      CountSplits(ds, i - 1);
      WrapBoth(Sum(s[..i]), CountIn(ds, 0, i - 1), CountIn(ds, i, i));
    }
  }

  lemma SumLast(s: seq<nat>, i: nat)
    requires i < |s|
    ensures Sum(s[..i + 1]) == Sum(s[..i]) + s[i]
  {
    assert s[..i + 1][..i] == s[..i];
  }

  lemma WrapBoth(a: nat, b: nat, c: nat)
    requires Wrap(a) == Wrap(b)
    ensures Wrap(a + Wrap(c)) == Wrap(b + c)
  {
    WrapAdd(a, Wrap(c));
    WrapAdd(b, Wrap(c));
    WrapAdd(c, b);
  }

  lemma {:induction false} CountsAgree(ds: seq<nat>, i: nat)
    requires i < MAX_SLOTS
    ensures i < MAX_SLOTS - 1 ==> CountIn(ds, 0, i) == CountBelow(ds, Pow2(i + 1))
    ensures i == MAX_SLOTS - 1 ==> CountIn(ds, 0, i) == |ds|
    decreases |ds|
  {
    if ds != [] {
      CountsAgree(ds[..|ds| - 1], i);
      if i < MAX_SLOTS - 1 {
        SlotBelow(ds[|ds| - 1], i);
      }
    }
  }

  /**
   For every run with fewer than 2^64 samples, exported bucket i below the last
   counts exactly the samples below 2^(i+1).
   */
  lemma BucketCountsSamplesBelow(es: seq<Event>, i: nat)
    requires i < MAX_SLOTS - 1 && |Samples(es)| < 0x1_0000_0000_0000_0000
    ensures Wrap(Sum(SlotsAfter(es)[..i + 1])) == CountBelow(Samples(es), Pow2(i + 1))
  {
    SumCounts(es, i);
    CountsAgree(Samples(es), i);
    CountBounded(Samples(es), i);
  }

  function CountAtMost(ds: seq<nat>, bound: nat): nat {
    if ds == [] then 0 else CountAtMost(ds[..|ds| - 1], bound) + (if ds[|ds| - 1] <= bound then 1 else 0)
  }

  lemma {:induction false} AtMostOrBelow(ds: seq<nat>, a: nat, b: nat)
    requires a < b
    ensures CountAtMost(ds, a) <= CountBelow(ds, b)
    ensures CountAtMost(ds, a) == CountBelow(ds, b) <==> forall k :: 0 <= k < |ds| ==> !(a < ds[k] < b)
    decreases |ds|
  {
    if ds != [] {
      var n := |ds| - 1;
      AtMostOrBelow(ds[..n], a, b);
      if a < ds[n] < b {
        assert !forall k :: 0 <= k < |ds| ==> !(a < ds[k] < b);
      }
    }
  }

  /**
   The printed label of bucket `i` is 2^i, and a label promises the samples at
   most that large: the promise is kept if and only if no sample lies strictly
   between 2^i and 2^(i+1).
   */
  lemma LabelExact(es: seq<Event>, i: nat)
    requires i < MAX_SLOTS - 1 && |Samples(es)| < 0x1_0000_0000_0000_0000
    ensures LabelOf(i, MAX_SLOTS) == AtMost(Pow2(i))
    ensures Wrap(Sum(SlotsAfter(es)[..i + 1])) == CountAtMost(Samples(es), Pow2(i)) <==>
      forall k :: 0 <= k < |Samples(es)| ==> !(Pow2(i) < Samples(es)[k] < Pow2(i + 1))
  {
    BucketCountsSamplesBelow(es, i);
    AtMostOrBelow(Samples(es), Pow2(i), Pow2(i + 1));
  }

  /** A latency of 3 microseconds is counted in the bucket labelled "at most 2". */
  lemma LabelTooSmall(es: seq<Event>)
    requires es == [Wakeup(1, 0), Switch(1, 3000)]
    ensures Samples(es) == [3] && LabelOf(1, MAX_SLOTS) == AtMost(2)
    ensures CountAtMost(Samples(es), 2) == 0 && Wrap(Sum(SlotsAfter(es)[..2])) == 1
  {
    OneSample(es);
    BucketCountsSamplesBelow(es, 1);
    var ds := Samples(es);
    assert ds[..0] == [];
    assert Pow2(1) == 2 && Pow2(2) == 4;
  }

  lemma OneSample(es: seq<Event>)
    requires es == [Wakeup(1, 0), Switch(1, 3000)]
    ensures Samples(es) == [3]
  {
    var w := es[..1];
    assert w[..0] == [];
    assert StartAfter(w[..0]) == map[] && Samples(w[..0]) == [];
    assert StartAfter(w) == map[1 := 0] && Samples(w) == [];
    assert [] + [3] == [3];
  }

  /** The last exported bucket equals the total, and both are the number of samples. */
  lemma LastBucketIsTotal(es: seq<Event>)
    requires |Samples(es)| < 0x1_0000_0000_0000_0000
    ensures SlotsAfter(es)[..MAX_SLOTS] == SlotsAfter(es)
    ensures Wrap(Sum(SlotsAfter(es))) == |Samples(es)|
  {
    SumCounts(es, MAX_SLOTS - 1);
    CountsAgree(Samples(es), MAX_SLOTS - 1);
  }

  lemma {:induction false} CountBounded(ds: seq<nat>, i: nat)
    ensures CountIn(ds, 0, i) <= |ds|
  {
    if ds != [] {
      CountBounded(ds[..|ds| - 1], i);
    }
  }
}
