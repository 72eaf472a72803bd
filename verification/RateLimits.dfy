/**
  The byte counters and rate limits of file transfers.  A flow is one direction: the
  device-wide counter, the counters of the permits, and the average that the ticker
  computes.  The counters are uint64 and guarded against overflow by skipping an addition
  that would reach the maximum; the average is a real number and the weight of a tick any
  number strictly between zero and one.
 */
module RateLimits {

  const MAX_UINT64: nat := 0xFFFF_FFFF_FFFF_FFFF

  /** The guarded addition of `BytesSent` and `BytesReceived`. */
  function Add(counter: nat, n: nat): (r: nat)
    ensures counter <= MAX_UINT64 ==> counter <= r <= MAX_UINT64
    ensures r == counter + n || (r == counter && counter + n >= MAX_UINT64)
  {
    if n != 0 && counter < MAX_UINT64 - n then counter + n else counter
  }

  /** Subtraction of uint64 values. */
  function Sub64(a: nat, b: nat): nat {
    (a - b) % (MAX_UINT64 + 1)
  }

  datatype Flow = Flow(
    device: nat, permits: seq<nat>,
    last: nat, avg: real,
    deltas: seq<nat>)   // history: what each tick saw

  const START: Flow := Flow(0, [], 0, 0.0, [])

  datatype Event =
    | NewPermit
    | Transfer(permit: nat, n: nat)   // by a permit whose limits are enabled
    | Tick

  predicate Enabled(f: Flow, e: Event) {
    e.Transfer? ==> e.permit < |f.permits| && e.n <= MAX_UINT64
  }

  /** The moving average of `updateCounters`; `w` is the weight of the new delta. */
  function Average(w: real, delta: nat, avg: real): real {
    w * delta as real + (1.0 - w) * avg
  }

  function Apply(w: real, f: Flow, e: Event): Flow
    requires Enabled(f, e)
  {
    match e
    case NewPermit => f.(permits := f.permits + [0])
    case Transfer(p, n) => f.(device := Add(f.device, n), permits := f.permits[p := Add(f.permits[p], n)])
    case Tick =>
      var delta := Sub64(f.device, f.last);
      f.(last := f.device, avg := Average(w, delta, f.avg), deltas := f.deltas + [delta])
  }

  predicate Run(w: real, f: Flow, events: seq<Event>, g: Flow)
    decreases |events|
  {
    if events == [] then f == g
    else Enabled(f, events[0]) && Run(w, Apply(w, f, events[0]), events[1..], g)
  }

  /** A transfer is refused: the average, truncated to uint64, has reached a nonzero limit. */
  predicate Refused(avg: real, limit: nat) {
    limit > 0 && avg.Floor >= limit
  }

  // ---------------------------------------------------------------- invariants

  function Sum(s: seq<nat>): nat
    decreases |s|
  {
    if s == [] then 0 else Sum(s[..|s| - 1]) + s[|s| - 1]
  }

  predicate Bounded(avg: real, deltas: seq<nat>) {
    0.0 <= avg && (avg == 0.0 || exists d :: d in deltas && avg <= d as real)
  }

  /** Every permit of `f` still counts in `g`, and no less. */
  predicate PermitsGrow(f: Flow, g: Flow) {
    |f.permits| <= |g.permits| && forall p :: 0 <= p < |f.permits| ==> f.permits[p] <= g.permits[p]
  }

  predicate PermitsFit(f: Flow) {
    forall p :: 0 <= p < |f.permits| ==> f.permits[p] <= MAX_UINT64
  }

  predicate Inv(f: Flow) {
    PermitsFit(f) && f.last <= f.device <= MAX_UINT64 && Sum(f.deltas) == f.last && Bounded(f.avg, f.deltas)
  }

  lemma SumSnoc(s: seq<nat>, n: nat)
    ensures Sum(s + [n]) == Sum(s) + n
  {
    assert (s + [n])[..|s|] == s;
  }

  lemma ScaleOrder(w: real, x: real, y: real)
    requires 0.0 <= w && x <= y
    ensures w * x <= w * y
  {
  }

  lemma Split(v: real, w: real, x: real)
    requires v + w == 1.0
    ensures v * x + w * x == x
  {
    assert v * x + w * x == (v + w) * x;
  }

  lemma Between(p: real, q: real, pBound: real, qBound: real, bound: real)
    requires 0.0 <= p <= pBound && 0.0 <= q <= qBound && pBound + qBound == bound
    ensures 0.0 <= p + q <= bound
  {
  }

  lemma MixBetween(w: real, v: real, d: real, avg: real, bound: real)
    requires 0.0 <= w && 0.0 <= v && v + w == 1.0 && 0.0 <= avg <= bound && 0.0 <= d <= bound
    ensures 0.0 <= w * d + v * avg <= bound
  {
    ScaleOrder(w, 0.0, d);
    ScaleOrder(w, d, bound);
    ScaleOrder(v, 0.0, avg);
    ScaleOrder(v, avg, bound);
    Split(w, v, bound);
    Between(w * d, v * avg, w * bound, v * bound, bound);
  }

  lemma AverageBetween(w: real, delta: nat, avg: real, bound: real)
    requires 0.0 < w < 1.0 && 0.0 <= avg <= bound && delta as real <= bound
    ensures 0.0 <= Average(w, delta, avg) <= bound
  {
    MixBetween(w, 1.0 - w, delta as real, avg, bound);
  }

  lemma TickBounded(w: real, delta: nat, avg: real, deltas: seq<nat>)
    requires 0.0 < w < 1.0 && Bounded(avg, deltas)
    ensures Bounded(Average(w, delta, avg), deltas + [delta])
  {
    var after := deltas + [delta];
    assert after[|deltas|] == delta;
    if avg <= delta as real {
      AverageBetween(w, delta, avg, delta as real);
      assert delta in after;
    } else {
      var d :| d in deltas && avg <= d as real;
      AverageBetween(w, delta, avg, d as real);
      assert d in after;
    }
  }

  lemma StepKeepsInv(w: real, f: Flow, e: Event)
    requires 0.0 < w < 1.0 && Inv(f) && Enabled(f, e)
    ensures Inv(Apply(w, f, e)) && f.device <= Apply(w, f, e).device && PermitsGrow(f, Apply(w, f, e))
    ensures e == Tick ==> Apply(w, f, e).deltas == f.deltas + [f.device - f.last]
  {
    if e == Tick {
      SumSnoc(f.deltas, f.device - f.last);
      TickBounded(w, f.device - f.last, f.avg, f.deltas);
    }
  }

  lemma {:induction false} RunKeepsInv(w: real, f: Flow, events: seq<Event>, g: Flow)
    requires 0.0 < w < 1.0 && Inv(f) && Run(w, f, events, g)
    ensures Inv(g) && f.device <= g.device && f.deltas <= g.deltas && PermitsGrow(f, g)
    decreases |events|
  {
    if events != [] {
      StepKeepsInv(w, f, events[0]);
      RunKeepsInv(w, Apply(w, f, events[0]), events[1..], g);
    }
  }

  // ---------------------------------------------------------------- main theorems

  /**
    The device's and every permit's counter never shrink or overflow; tick deltas never
    wrap, and add up to the device's counter at the last tick.
   */
  lemma CountersAddUp(w: real, events: seq<Event>, f: Flow, more: seq<Event>, g: Flow)
    requires 0.0 < w < 1.0 && Run(w, START, events, f) && Run(w, f, more, g)
    ensures f.device <= g.device <= MAX_UINT64 && PermitsGrow(f, g) && PermitsFit(g)
    ensures Sum(g.deltas) == g.last <= g.device
    ensures f.deltas <= g.deltas
  {
    RunKeepsInv(w, START, events, f);
    RunKeepsInv(w, f, more, g);
  }

  /** A transfer is refused only if the bytes of some single tick had reached the limit. */
  lemma RefusalHasACause(w: real, events: seq<Event>, f: Flow, limit: nat)
    requires 0.0 < w < 1.0 && Run(w, START, events, f) && Refused(f.avg, limit)
    ensures exists d :: d in f.deltas && d >= limit
  {
    RunKeepsInv(w, START, events, f);
    var d :| d in f.deltas && f.avg <= d as real;
    assert f.avg >= limit as real;
  }

  // ---------------------------------------------------------------- a steady flow is refused

  /** The average after a sequence of tick deltas, from zero. */
  function AverageOf(w: real, deltas: seq<nat>): real
    decreases |deltas|
  {
    if deltas == [] then 0.0
    else Average(w, deltas[|deltas| - 1], AverageOf(w, deltas[..|deltas| - 1]))
  }

  lemma {:induction false} RunAverages(w: real, f: Flow, events: seq<Event>, g: Flow)
    requires Run(w, f, events, g) && f.avg == AverageOf(w, f.deltas)
    ensures g.avg == AverageOf(w, g.deltas)
    decreases |events|
  {
    if events != [] {
      var h := Apply(w, f, events[0]);
      if events[0] == Tick {
        assert h.deltas[..|f.deltas|] == f.deltas;
      }
      RunAverages(w, h, events[1..], g);
    }
  }

  function Power(x: real, n: nat): real {
    if n == 0 then 1.0 else x * Power(x, n - 1)
  }

  lemma Distribute(v: real, x: real, y: real)
    ensures v * (x - y) == v * x - v * y
  {
    assert (x - y) * v + y * v == (x - y + y) * v;
  }

  lemma Chain(wx: real, wd: real, va: real, vd: real, vGap: real, d: real)
    requires wd <= wx && vd - va <= vGap && wd + vd == d
    ensures d - (wx + va) <= vGap
  {
  }

  lemma MixClosesGap(w: real, v: real, x: real, avg: real, d: real, gap: real)
    requires 0.0 <= w && 0.0 <= v && v + w == 1.0 && x >= d && d - avg <= gap
    ensures d - (w * x + v * avg) <= v * gap
  {
    ScaleOrder(w, d, x);
    ScaleOrder(v, d - avg, gap);
    Distribute(v, d, avg);
    Split(w, v, d);
    Chain(w * x, w * d, v * avg, v * d, v * gap, d);
  }

  function Shrink(w: real, gap: real): real {
    (1.0 - w) * gap
  }

  /** A tick that sees at least `d` closes the gap between the average and `d` by the weight. */
  lemma TickClosesGap(w: real, delta: nat, avg: real, d: real, gap: real)
    requires 0.0 < w < 1.0 && delta as real >= d && d - avg <= gap
    ensures d - Average(w, delta, avg) <= Shrink(w, gap)
  {
    MixClosesGap(w, 1.0 - w, delta as real, avg, d, gap);
  }

  /** The last `n` ticks each saw at least `d`. */
  predicate Steady(deltas: seq<nat>, n: nat, d: nat) {
    n <= |deltas| && forall i :: |deltas| - n <= i < |deltas| ==> deltas[i] >= d
  }

  lemma {:induction false} AverageIsNonNegative(w: real, deltas: seq<nat>)
    requires 0.0 < w < 1.0
    ensures AverageOf(w, deltas) >= 0.0
    decreases |deltas|
  {
    if deltas != [] {
      var k := |deltas| - 1;
      AverageIsNonNegative(w, deltas[..k]);
      AverageBetween(w, deltas[k], AverageOf(w, deltas[..k]), AverageOf(w, deltas[..k]) + deltas[k] as real);
    }
  }

  /** What is left of the gap `d` after `n` ticks. */
  function Gap(w: real, n: nat, d: real): real {
    if n == 0 then d else Shrink(w, Gap(w, n - 1, d))
  }

  /** After them the average is within that gap of `d`. */
  lemma {:induction false} SteadyAverage(w: real, deltas: seq<nat>, n: nat, d: nat)
    requires 0.0 < w < 1.0 && Steady(deltas, n, d)
    ensures d as real - AverageOf(w, deltas) <= Gap(w, n, d as real)
    decreases |deltas|
  {
    if n == 0 {
      AverageIsNonNegative(w, deltas);
    } else {
      var k := |deltas| - 1;
      SteadyAverage(w, deltas[..k], n - 1, d);
      TickClosesGap(w, deltas[k], AverageOf(w, deltas[..k]), d as real, Gap(w, n - 1, d as real));
    }
  }

  lemma Associate(x: real, y: real, z: real)
    ensures x * (y * z) == (x * y) * z
  {
  }

  lemma {:induction false} GapIsPower(w: real, n: nat, d: real)
    ensures Gap(w, n, d) == Power(1.0 - w, n) * d
  {
    if n > 0 {
      GapIsPower(w, n - 1, d);
      Associate(1.0 - w, Power(1.0 - w, n - 1), d);
    }
  }

  lemma PowerStep(w: real, p: real, x: real)
    requires 0.0 < w < 1.0 && 0.0 <= p && 1.0 <= x && p * x <= 1.0
    ensures (1.0 - w) * p * (x + w) <= 1.0
  {
    assert (1.0 - w) * (x + w) == x - w * (x - 1.0 + w);
    ScaleOrder(w, 0.0, x - 1.0 + w);
    ScaleOrder(p, (1.0 - w) * (x + w), x);
    assert (1.0 - w) * p * (x + w) == p * ((1.0 - w) * (x + w));
  }

  function Times(n: nat, w: real): real {
    if n == 0 then 0.0 else Times(n - 1, w) + w
  }

  lemma SumTimes(x: real, y: real, w: real)
    ensures (x + y) * w == x * w + y * w
  {
  }

  lemma {:induction false} TimesIsProduct(n: nat, w: real)
    ensures Times(n, w) == n as real * w
  {
    if n > 0 {
      TimesIsProduct(n - 1, w);
      SumTimes((n - 1) as real, 1.0, w);
    }
  }

  /** Powers of the old weight fall at least as fast as 1/(1 + n*w). */
  lemma {:induction false} PowerFalls(w: real, n: nat)
    requires 0.0 < w < 1.0
    ensures 0.0 <= Times(n, w) && 0.0 <= Power(1.0 - w, n) && Power(1.0 - w, n) * (1.0 + Times(n, w)) <= 1.0
  {
    if n > 0 {
      PowerFalls(w, n - 1);
      var p, x := Power(1.0 - w, n - 1), 1.0 + Times(n - 1, w);
      ScaleOrder(1.0 - w, 0.0, p);
      PowerStep(w, p, x);
    }
  }

  lemma Expand(x: real, y: real)
    ensures (1.0 + x) * y == y + x * y
  {
  }

  /** The gap left after `n` ticks is below `d - limit` once n * w * (d - limit) has reached the limit. */
  lemma GapSmallEnough(p: real, nw: real, d: real, limit: real)
    requires 0.0 <= p && p * (1.0 + nw) <= 1.0 && limit < d && nw * (d - limit) >= limit
    ensures p * d <= d - limit
  {
    Expand(nw, d - limit);
    ScaleOrder(p, d, (1.0 + nw) * (d - limit));
    ScaleOrder(d - limit, p * (1.0 + nw), 1.0);
    Associate(p, 1.0 + nw, d - limit);
  }

  lemma AtLeastLimit(avg: real, gap: real, d: nat, limit: nat)
    requires d as real - avg <= gap <= d as real - limit as real && limit > 0
    ensures Refused(avg, limit)
  {
  }

  lemma GapCloses(w: real, n: nat, d: real, limit: real)
    requires 0.0 < w < 1.0 && limit < d && Times(n, w) * (d - limit) >= limit
    ensures Gap(w, n, d) <= d - limit
  {
    GapIsPower(w, n, d);
    PowerFalls(w, n);
    GapSmallEnough(Power(1.0 - w, n), Times(n, w), d, limit);
  }

  lemma SteadyIsRefused(w: real, deltas: seq<nat>, n: nat, d: nat, limit: nat)
    requires 0.0 < w < 1.0 && Steady(deltas, n, d)
    requires 0 < limit < d && Times(n, w) * (d as real - limit as real) >= limit as real
    ensures Refused(AverageOf(w, deltas), limit)
  {
    SteadyAverage(w, deltas, n, d);
    GapCloses(w, n, d as real, limit as real);
    AtLeastLimit(AverageOf(w, deltas), Gap(w, n, d as real), d, limit);
  }

  /**
    The converse of `RefusalHasACause`: whatever came before, a flow of at least `d` bytes
    per tick, above the limit, is refused once it has lasted `n` ticks with
    n * w * (d - limit) at least the limit.
   */
  lemma SteadyFlowIsRefused(w: real, events: seq<Event>, f: Flow, n: nat, d: nat, limit: nat)
    requires 0.0 < w < 1.0 && Run(w, START, events, f) && Steady(f.deltas, n, d)
    requires 0 < limit < d && (n as real * w) * (d as real - limit as real) >= limit as real
    ensures Refused(f.avg, limit)
  {
    RunAverages(w, START, events, f);
    TimesIsProduct(n, w);
    SteadyIsRefused(w, f.deltas, n, d, limit);
  }

  // ---------------------------------------------------------------- totals

  /** What the transfers of a run asked to count. */
  function Requested(events: seq<Event>): nat
    decreases |events|
  {
    if events == [] then 0
    else (if events[0].Transfer? then events[0].n else 0) + Requested(events[1..])
  }

  lemma {:induction false} SumUpdate(s: seq<nat>, p: nat, n: nat)
    requires p < |s|
    ensures Sum(s[p := n]) == Sum(s) - s[p] + n && s[p] <= Sum(s)
    decreases |s|
  {
    var k := |s| - 1;
    if p == k {
      assert s[p := n][..k] == s[..k];
    } else {
      SumUpdate(s[..k], p, n);
      assert s[p := n][..k] == s[..k][p := n];
    }
  }

  /** One transfer keeps the device total equal to the sum of the permits' exactly when both or neither count it. */
  lemma TransferKeepsTotals(w: real, f: Flow, p: nat, n: nat)
    requires Enabled(f, Transfer(p, n)) && f.device == Sum(f.permits)
    ensures var g := Apply(w, f, Transfer(p, n));
            g.device == Sum(g.permits) <==> n == 0 || f.device < MAX_UINT64 - n || f.permits[p] >= MAX_UINT64 - n
  {
    SumUpdate(f.permits, p, Add(f.permits[p], n));
  }

  lemma {:induction false} TotalsAgreeFrom(w: real, f: Flow, events: seq<Event>, g: Flow)
    requires Run(w, f, events, g) && f.device == Sum(f.permits)
    requires f.device + Requested(events) < MAX_UINT64
    ensures g.device == Sum(g.permits) == f.device + Requested(events)
    decreases |events|
  {
    if events != [] {
      var e := events[0];
      match e {
        case NewPermit => SumSnoc(f.permits, 0);
        case Transfer(p, n) => SumUpdate(f.permits, p, Add(f.permits[p], n));
        case Tick =>
      }
      TotalsAgreeFrom(w, Apply(w, f, e), events[1..], g);
    }
  }

  /** Below the ceiling nothing is lost: device total, permits' sum and requested bytes are one number. */
  lemma TotalsAgree(w: real, events: seq<Event>, f: Flow)
    requires Run(w, START, events, f) && Requested(events) < MAX_UINT64
    ensures f.device == Sum(f.permits) == Requested(events)
  {
    TotalsAgreeFrom(w, START, events, f);
  }

  // ---------------------------------------------------------------- the objects

  datatype Limits = Limits(enabled: bool, maxTxPerMinute: nat, maxRxPerMinute: nat)

  /** `deviceCounters`, with the locals of the ticker goroutine. */
  class DeviceCounters {
    var bytesTransferred: nat
    var bytesReceived: nat
    var avgTx: real
    var avgRx: real
    var lastTx: nat
    var lastRx: nat

    constructor ()
      ensures bytesTransferred == bytesReceived == lastTx == lastRx == 0 && avgTx == avgRx == 0.0
    {
      bytesTransferred, bytesReceived, lastTx, lastRx, avgTx, avgRx := 0, 0, 0, 0, 0.0, 0.0;
    }

    function Tx(permits: seq<nat>, deltas: seq<nat>): Flow
      reads this
    {
      Flow(bytesTransferred, permits, lastTx, avgTx, deltas)
    }

    function Rx(permits: seq<nat>, deltas: seq<nat>): Flow
      reads this
    {
      Flow(bytesReceived, permits, lastRx, avgRx, deltas)
    }

    /** One round of `updateCounters`: both directions tick. */
    method UpdateCounters(w1: real, ghost txDeltas: seq<nat>, ghost rxDeltas: seq<nat>)
      requires lastTx <= bytesTransferred <= MAX_UINT64 && lastRx <= bytesReceived <= MAX_UINT64
      modifies this
      ensures Tx([], txDeltas + [Sub64(old(bytesTransferred), old(lastTx))]) == Apply(w1, old(Tx([], txDeltas)), Tick)
      ensures Rx([], rxDeltas + [Sub64(old(bytesReceived), old(lastRx))]) == Apply(w1, old(Rx([], rxDeltas)), Tick)
    {
      var rx := Sub64(bytesReceived, lastRx);
      var tx := Sub64(bytesTransferred, lastTx);
      lastRx, lastTx := bytesReceived, bytesTransferred;
      avgRx := Average(w1, rx, avgRx);
      avgTx := Average(w1, tx, avgTx);
    }
  }

  class Permit {
    const limits: Limits
    const device: DeviceCounters
    var bytesTransferred: nat
    var bytesReceived: nat

    constructor (limits: Limits, device: DeviceCounters)
      ensures this.limits == limits && this.device == device && bytesTransferred == bytesReceived == 0
    {
      this.limits, this.device, bytesTransferred, bytesReceived := limits, device, 0, 0;
    }

    /** Counts `n` bytes sent, unless limits are off, and reports whether the rate is below the limit. */
    method BytesSent(n: nat) returns (belowLimit: bool)
      requires n <= MAX_UINT64
      modifies this`bytesTransferred, device`bytesTransferred
      ensures !limits.enabled ==> belowLimit && unchanged(this) && unchanged(device)
      ensures limits.enabled ==> device.bytesTransferred == Add(old(device.bytesTransferred), n)
      ensures limits.enabled ==> bytesTransferred == Add(old(bytesTransferred), n)
      ensures limits.enabled ==> (belowLimit <==> !Refused(device.avgTx, limits.maxTxPerMinute))
    {
      if !limits.enabled {
        return true;
      }
      if n != 0 && device.bytesTransferred < MAX_UINT64 - n {
        device.bytesTransferred := device.bytesTransferred + n;
      }
      belowLimit := !(limits.maxTxPerMinute > 0 && device.avgTx.Floor >= limits.maxTxPerMinute);
      if n != 0 && bytesTransferred < MAX_UINT64 - n {
        bytesTransferred := bytesTransferred + n;
      }
    }

    /** The same for bytes received. */
    method BytesReceived(n: nat) returns (belowLimit: bool)
      requires n <= MAX_UINT64
      modifies this`bytesReceived, device`bytesReceived
      ensures !limits.enabled ==> belowLimit && unchanged(this) && unchanged(device)
      ensures limits.enabled ==> device.bytesReceived == Add(old(device.bytesReceived), n)
      ensures limits.enabled ==> bytesReceived == Add(old(bytesReceived), n)
      ensures limits.enabled ==> (belowLimit <==> !Refused(device.avgRx, limits.maxRxPerMinute))
    {
      if !limits.enabled {
        return true;
      }
      if n != 0 && device.bytesReceived < MAX_UINT64 - n {
        device.bytesReceived := device.bytesReceived + n;
      }
      belowLimit := !(limits.maxRxPerMinute > 0 && device.avgRx.Floor >= limits.maxRxPerMinute);
      if n != 0 && bytesReceived < MAX_UINT64 - n {
        bytesReceived := bytesReceived + n;
      }
    }
  }
}
