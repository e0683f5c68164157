/** One slot of the publish schedule over a whole run of tick times. Nothing here bounds the
    number of ticks; most results do not even need the clock to be monotone. */
module Schedule {
  import opened Publisher

  /** When the slot is due after the given ticks. */
  function DueAfter(due: Nanos, cycle: Nanos, ticks: seq<Nanos>): Nanos {
    if ticks == [] then due
    else
      var d, now := DueAfter(due, cycle, ticks[..|ticks| - 1]), ticks[|ticks| - 1];
      if now < d then d else NextDue(d, cycle, now)
  }

  /** The times at which the slot fires. */
  function Firings(due: Nanos, cycle: Nanos, ticks: seq<Nanos>): seq<Nanos> {
    if ticks == [] then []
    else
      var now := ticks[|ticks| - 1];
      Firings(due, cycle, ticks[..|ticks| - 1])
      + (if now < DueAfter(due, cycle, ticks[..|ticks| - 1]) then [] else [now])
  }

  /** The due time of each firing, and of the one still to come. */
  function Dues(due: Nanos, cycle: Nanos, ticks: seq<Nanos>): seq<Nanos> {
    if ticks == [] then [due]
    else
      var now := ticks[|ticks| - 1];
      Dues(due, cycle, ticks[..|ticks| - 1])
      + (if now < DueAfter(due, cycle, ticks[..|ticks| - 1]) then [] else [DueAfter(due, cycle, ticks)])
  }

  lemma OneMoreTick(due: Nanos, cycle: Nanos, ticks: seq<Nanos>, now: Nanos)
    ensures var d := DueAfter(due, cycle, ticks);
            && DueAfter(due, cycle, ticks + [now]) == (if now < d then d else NextDue(d, cycle, now))
            && Firings(due, cycle, ticks + [now]) == Firings(due, cycle, ticks) + (if now < d then [] else [now])
  {
    assert (ticks + [now])[..|ticks|] == ticks;
  }

  /** No firing is early; the next due time is at least a period after the last one and lies
      between the firing and a period after it. */
  lemma {:induction false} DueSteps(due: Nanos, cycle: Nanos, ticks: seq<Nanos>)
    requires cycle > 0
    ensures var f, d := Firings(due, cycle, ticks), Dues(due, cycle, ticks);
            && |d| == |f| + 1 && d[0] == due && d[|f|] == DueAfter(due, cycle, ticks)
            && (forall k :: 0 <= k < |f| ==> d[k] <= f[k] <= d[k + 1] <= f[k] + cycle && d[k] + cycle <= d[k + 1])
  {
    if ticks != [] {
      var early, now := ticks[..|ticks| - 1], ticks[|ticks| - 1];
      DueSteps(due, cycle, early);
      assert early + [now] == ticks;
      OneMoreTick(due, cycle, early, now);
      OneMoreDue(due, cycle, early, now);
      hide Firings, Dues, DueAfter;
    }
  }

  lemma OneMoreDue(due: Nanos, cycle: Nanos, ticks: seq<Nanos>, now: Nanos)
    ensures var d, longer := DueAfter(due, cycle, ticks), ticks + [now];
            Dues(due, cycle, longer) ==
            Dues(due, cycle, ticks) + (if now < d then [] else [DueAfter(due, cycle, longer)])
  {
    assert (ticks + [now])[..|ticks|] == ticks;
  }

  /** Due time d[k + 1] as firing k leaves it: a firing more than a period late starts the schedule anew, a
      whole period after itself; any other firing keeps the grid. */
  predicate Resynced(f: seq<Nanos>, d: seq<Nanos>, cycle: Nanos) {
    && |d| == |f| + 1
    && forall k :: 0 <= k < |f| ==> d[k] <= f[k] && d[k + 1] == (if f[k] > d[k] + cycle then f[k] else d[k]) + cycle
  }

  lemma ResyncedOnce(f: seq<Nanos>, d: seq<Nanos>, cycle: Nanos, now: Nanos)
    requires Resynced(f, d, cycle) && d[|f|] <= now
    ensures Resynced(f + [now], d + [NextDue(d[|f|], cycle, now)], cycle)
  {
  }

  /** Every due time is so, whatever the tick times; and no firing follows a late one within a period. */
  lemma {:induction false} LateStartsAnew(due: Nanos, cycle: Nanos, ticks: seq<Nanos>)
    requires cycle > 0
    ensures var f, d := Firings(due, cycle, ticks), Dues(due, cycle, ticks);
            && Resynced(f, d, cycle) && d[0] == due && d[|f|] == DueAfter(due, cycle, ticks)
            && forall k :: 0 <= k < |f| - 1 && f[k] > d[k] + cycle ==> f[k + 1] - f[k] >= cycle
  {
    if ticks != [] {
      var early, now := ticks[..|ticks| - 1], ticks[|ticks| - 1];
      LateStartsAnew(due, cycle, early);
      assert early + [now] == ticks;
      OneMoreTick(due, cycle, early, now);
      OneMoreDue(due, cycle, early, now);
      var f, d := Firings(due, cycle, early), Dues(due, cycle, early);
      if d[|f|] <= now {
        ResyncedOnce(f, d, cycle, now);
      }
      hide Firings, Dues, DueAfter, NextDue;
    }
  }

  lemma {:induction false} DuesApart(due: Nanos, cycle: Nanos, ticks: seq<Nanos>, i: nat, j: nat)
    requires cycle > 0 && i <= j < |Dues(due, cycle, ticks)|
    ensures Dues(due, cycle, ticks)[j] >= Dues(due, cycle, ticks)[i] + (j - i) * cycle
  {
    DueSteps(due, cycle, ticks);
    if i < j {
      DuesApart(due, cycle, ticks, i, j - 1);
      assert (j - i) * cycle == (j - 1 - i) * cycle + cycle;
    }
  }

  /** No burst, whatever the tick times: n consecutive firings span at least n - 2 periods. */
  lemma NoBurst(due: Nanos, cycle: Nanos, ticks: seq<Nanos>, first: nat, n: nat)
    requires cycle > 0 && n >= 2 && first + n <= |Firings(due, cycle, ticks)|
    ensures Firings(due, cycle, ticks)[first + n - 1] - Firings(due, cycle, ticks)[first] >= (n - 2) * cycle
  {
    DueSteps(due, cycle, ticks);
    DuesApart(due, cycle, ticks, first + 1, first + n - 1);
  }

  /** Every tick comes at most `late` after the slot's due time at that moment. */
  ghost predicate Punctual(due: Nanos, cycle: Nanos, ticks: seq<Nanos>, late: Nanos) {
    forall k :: 0 <= k < |ticks| ==> ticks[k] <= DueAfter(due, cycle, ticks[..k]) + late
  }

  predicate Sorted(ticks: seq<Nanos>) {
    forall i, j :: 0 <= i <= j < |ticks| ==> ticks[i] <= ticks[j]
  }

  lemma PunctualPrefix(due: Nanos, cycle: Nanos, ticks: seq<Nanos>, late: Nanos)
    requires ticks != [] && Punctual(due, cycle, ticks, late)
    ensures Punctual(due, cycle, ticks[..|ticks| - 1], late)
    ensures ticks[|ticks| - 1] <= DueAfter(due, cycle, ticks[..|ticks| - 1]) + late
  {
    var early := ticks[..|ticks| - 1];
    forall k | 0 <= k < |early|
      ensures early[k] <= DueAfter(due, cycle, early[..k]) + late
    {
      assert early[..k] == ticks[..k];
    }
  }

  lemma {:induction false} PunctualExtend(due: Nanos, cycle: Nanos, ticks: seq<Nanos>, now: Nanos, late: Nanos)
    requires Punctual(due, cycle, ticks, late) && now <= DueAfter(due, cycle, ticks) + late
    ensures Punctual(due, cycle, ticks + [now], late)
  {
    var longer := ticks + [now];
    forall k | 0 <= k < |longer|
      ensures longer[k] <= DueAfter(due, cycle, longer[..k]) + late
    {
      assert longer[..k] == ticks[..k] && ticks[..|ticks|] == ticks;
    }
  }

  /** Point n of the grid fixed at `a`. */
  function Mark(a: Nanos, period: Nanos, n: nat): Nanos { a + n * period }

  lemma NextMark(a: Nanos, period: Nanos, n: nat)
    ensures Mark(a, period, n + 1) == Mark(a, period, n) + period
  {
  }

  /** Time k lies within the lateness after a + k periods. */
  predicate NearGrid(t: seq<Nanos>, a: Nanos, period: Nanos, late: Nanos) {
    forall k :: 0 <= k < |t| ==> Mark(a, period, k) <= t[k] <= Mark(a, period, k) + late
  }

  lemma NearGridOnce(t: seq<Nanos>, a: Nanos, period: Nanos, late: Nanos, now: Nanos)
    requires NearGrid(t, a, period, late) && Mark(a, period, |t|) <= now <= Mark(a, period, |t|) + late
    ensures NearGrid(t + [now], a, period, late)
  {
    hide Mark;
  }

  /** Ticks that are never a whole period late keep the schedule on the grid fixed at arming:
      firing k falls within `late` after due + k * cycle, and nothing is due after a tick. */
  lemma {:induction false} OnGrid(due: Nanos, cycle: Nanos, ticks: seq<Nanos>, late: Nanos)
    requires 0 <= late < cycle && Punctual(due, cycle, ticks, late)
    ensures var f := Firings(due, cycle, ticks);
            && DueAfter(due, cycle, ticks) == Mark(due, cycle, |f|) && NearGrid(f, due, cycle, late)
            && (ticks != [] ==> ticks[|ticks| - 1] < DueAfter(due, cycle, ticks))
  {
    hide Firings, DueAfter, Punctual, NearGrid, NextDue, Mark;
    if ticks == [] {
      GridStarts(due, cycle, late);
    } else {
      var early, now := ticks[..|ticks| - 1], ticks[|ticks| - 1];
      PunctualPrefix(due, cycle, ticks, late);
      OnGrid(due, cycle, early, late);
      assert early + [now] == ticks;
      OneMoreTick(due, cycle, early, now);
      var f, d := Firings(due, cycle, early), DueAfter(due, cycle, early);
      if d <= now {
        NextMark(due, cycle, |f|);
        SoonEnough(d, cycle, now);
        NearGridOnce(f, due, cycle, late, now);
      } else {
        assert f + [] == f;
      }
    }
  }

  lemma GridStarts(due: Nanos, cycle: Nanos, late: Nanos)
    ensures Firings(due, cycle, []) == [] && DueAfter(due, cycle, []) == due == Mark(due, cycle, 0)
    ensures NearGrid([], due, cycle, late)
  {
  }

  lemma SoonEnough(due: Nanos, cycle: Nanos, now: Nanos)
    requires due <= now < due + cycle
    ensures now < NextDue(due, cycle, now) == due + cycle
  {
  }

  lemma {:induction false} FiringsAreTicks(due: Nanos, cycle: Nanos, ticks: seq<Nanos>)
    requires Sorted(ticks)
    ensures Sorted(Firings(due, cycle, ticks))
    ensures forall k :: 0 <= k < |Firings(due, cycle, ticks)| ==>
              ticks != [] && Firings(due, cycle, ticks)[k] <= ticks[|ticks| - 1]
    ensures ticks != [] ==> ticks[|ticks| - 1] < DueAfter(due, cycle, ticks) ||
                            (|Firings(due, cycle, ticks)| > 0 &&
                             Firings(due, cycle, ticks)[|Firings(due, cycle, ticks)| - 1] == ticks[|ticks| - 1])
  {
    if ticks != [] {
      FiringsAreTicks(due, cycle, ticks[..|ticks| - 1]);
    }
  }

  lemma QuotientIs(a: int, c: int, q: int)
    requires c > 0 && q * c <= a < (q + 1) * c
    ensures a / c == q
  {
    var k := a / c - q;
    assert (q + 1) * c == q * c + c;
    assert k * c == (a / c) * c - q * c;
    if k >= 1 {
      AtLeastOnce(k, c);
    } else if k <= -1 {
      AtLeastOnce(-k, c);
    }
  }

  lemma AtLeastOnce(k: int, c: int)
    requires k >= 1 && c > 0
    ensures k * c >= c
  {
  }

  /** Drift-free: after a tick at T the slot has fired exactly floor((T - due) / cycle) + 1 times. */
  lemma FiringCount(due: Nanos, cycle: Nanos, ticks: seq<Nanos>, late: Nanos)
    requires 0 <= late < cycle && Punctual(due, cycle, ticks, late) && Sorted(ticks)
    requires ticks != [] && due <= ticks[|ticks| - 1]
    ensures |Firings(due, cycle, ticks)| == (ticks[|ticks| - 1] - due) / cycle + 1
  {
    OnGrid(due, cycle, ticks, late);
    FiringsAreTicks(due, cycle, ticks);
    var n := |Firings(due, cycle, ticks)|;
    if n == 0 {
      assert false;
    }
    assert due + (n - 1) * cycle <= Firings(due, cycle, ticks)[n - 1];
    QuotientIs(ticks[|ticks| - 1] - due, cycle, n - 1);
  }

  /** Even when ticks run more than a period late, consecutive firings are at most a period plus
      the lateness apart, and once it has fired, the slot fired less than a period before any tick. */
  lemma FiringGaps(due: Nanos, cycle: Nanos, ticks: seq<Nanos>, late: Nanos)
    requires cycle > 0 && late >= 0 && Punctual(due, cycle, ticks, late)
    ensures var f, d := Firings(due, cycle, ticks), Dues(due, cycle, ticks);
            && |d| == |f| + 1
            && (forall k :: 0 <= k < |f| ==> f[k] <= d[k] + late)
            && (forall k :: 0 < k < |f| ==> f[k] - f[k - 1] <= cycle + late)
            && (ticks != [] && f != [] ==> ticks[|ticks| - 1] - f[|f| - 1] < cycle)
  {
    hide Firings, Dues, DueAfter, Punctual;
    DueSteps(due, cycle, ticks);
    FiringsPunctual(due, cycle, ticks, late);
    if ticks != [] { SinceLastFiring(due, cycle, ticks); }
  }

  lemma {:induction false} FiringsPunctual(due: Nanos, cycle: Nanos, ticks: seq<Nanos>, late: Nanos)
    requires Punctual(due, cycle, ticks, late)
    ensures var f, d := Firings(due, cycle, ticks), Dues(due, cycle, ticks);
            && |d| == |f| + 1 && d[|f|] == DueAfter(due, cycle, ticks)
            && forall k :: 0 <= k < |f| ==> f[k] <= d[k] + late
  {
    if ticks != [] {
      PunctualPrefix(due, cycle, ticks, late);
      FiringsPunctual(due, cycle, ticks[..|ticks| - 1], late);
    }
  }

  lemma {:induction false} SinceLastFiring(due: Nanos, cycle: Nanos, ticks: seq<Nanos>)
    requires cycle > 0 && ticks != []
    ensures var f, now := Firings(due, cycle, ticks), ticks[|ticks| - 1];
            f != [] ==> now - f[|f| - 1] < cycle
  {
    var early := ticks[..|ticks| - 1];
    DueSteps(due, cycle, early);
  }

  /** How many firings are no later than `x`. */
  function FiredBy(f: seq<Nanos>, x: Nanos): nat {
    if f == [] then 0 else if f[|f| - 1] <= x then |f| else FiredBy(f[..|f| - 1], x)
  }

  lemma {:induction false} FiredBySplits(f: seq<Nanos>, x: Nanos)
    requires Sorted(f)
    ensures FiredBy(f, x) <= |f|
    ensures forall k :: 0 <= k < |f| ==> (f[k] <= x <==> k < FiredBy(f, x))
  {
    if f != [] && f[|f| - 1] > x {
      FiredBySplits(f[..|f| - 1], x);
    }
  }

  /** Once the clock has moved a period past `x`, the slot has fired after `x` and within a period
      plus the lateness of it. */
  lemma FiresSoonAfter(due: Nanos, cycle: Nanos, ticks: seq<Nanos>, late: Nanos, x: Nanos) returns (k: nat)
    requires cycle > 0 && late >= 0 && Punctual(due, cycle, ticks, late) && Sorted(ticks)
    requires due <= x + cycle && ticks != [] && x + cycle <= ticks[|ticks| - 1]
    ensures k < |Firings(due, cycle, ticks)| && x < Firings(due, cycle, ticks)[k] <= x + cycle + late
  {
    var f := Firings(due, cycle, ticks);
    DueSteps(due, cycle, ticks);
    FiringsAreTicks(due, cycle, ticks);
    FiringGaps(due, cycle, ticks, late);
    FiredBySplits(f, x);
    k := FiredBy(f, x);
    assert Dues(due, cycle, ticks)[k] <= x + cycle by {
      if k > 0 { assert f[k - 1] <= x; }
    }
  }
}
