/** No PID starves. Selections are made at given times, each followed by markRequested; an item
    whose lateness has grown past an explicit threshold is selected within n further selections. */
module PollerFairness {
  import opened Options
  import opened Poller

  /** Each step selects the most overdue item, if any is due, and reschedules it. */
  function Selected(items: seq<Item>, now: int): seq<Item> {
    var b := Best(items, now, |items|);
    if b.None? then items else items[b.value := items[b.value].(due := now + items[b.value].interval)]
  }

  function After(items: seq<Item>, times: seq<int>): (r: seq<Item>)
    ensures |r| == |items|
  {
    if times == [] then items else Selected(After(items, times[..|times| - 1]), times[|times| - 1])
  }

  /** What the k-th selection chose. */
  function Choice(items: seq<Item>, times: seq<int>, k: nat): Option<nat>
    requires k < |times|
  {
    Best(After(items, times[..k]), times[k], |items|)
  }

  /** Rescheduling by index is what markRequested does with the selected PID. */
  lemma SelectedIsRequested(items: seq<Item>, now: int)
    requires ValidItems(items)
    ensures var b := Best(items, now, |items|);
            b.Some? ==> Selected(items, now) == Requested(items, items[b.value].pid, now)
  {
    var b := Best(items, now, |items|);
    if b.Some? {
      FindUnique(items, items[b.value].pid, b.value);
    }
  }

  lemma {:induction false} AfterShape(items: seq<Item>, times: seq<int>)
    requires ValidItems(items) && forall k :: 0 <= k < |times| ==> times[k] >= 0
    ensures ValidItems(After(items, times))
    ensures forall i :: 0 <= i < |items| ==>
              After(items, times)[i].interval == items[i].interval && After(items, times)[i].pid == items[i].pid
  {
    if times != [] {
      AfterShape(items, times[..|times| - 1]);
    }
  }

  /** An item's due time is fixed by the last selection that chose it. */
  lemma {:induction false} DueSince(items: seq<Item>, times: seq<int>, i: nat, from: nat, to: nat)
    requires i < |items| && from <= to <= |times|
    requires forall k :: from <= k < to ==> Choice(items, times, k) != Some(i)
    ensures After(items, times[..to])[i].due == After(items, times[..from])[i].due
  {
    if from < to {
      DueSince(items, times, i, from, to - 1);
      assert times[..to][..to - 1] == times[..to - 1];
      assert Choice(items, times, to - 1) != Some(i);
    }
  }

  lemma DueWhenChosen(items: seq<Item>, times: seq<int>, k: nat)
    requires ValidItems(items) && (forall m :: 0 <= m < |times| ==> times[m] >= 0)
    requires k < |times| && Choice(items, times, k).Some?
    ensures var j := Choice(items, times, k).value;
            After(items, times[..k + 1])[j].due == times[k] + items[j].interval
  {
    assert times[..k + 1][..k] == times[..k];
    AfterShape(items, times[..k]);
  }

  lemma {:induction false} SubsetSize(a: set<nat>, b: set<nat>)
    requires a <= b
    ensures |a| <= |b|
  {
    if a != {} {
      var x :| x in a;
      SubsetSize(a - {x}, b - {x});
    }
  }

  function Range(n: nat): set<nat> { if n == 0 then {} else Range(n - 1) + {n - 1} }

  lemma {:induction false} RangeSize(n: nat)
    ensures |Range(n)| == n && forall x: nat :: x in Range(n) <==> x < n
  {
    if n > 0 { RangeSize(n - 1); }
  }

  function Values(c: seq<nat>, n: nat): set<nat>
    requires n <= |c|
  {
    if n == 0 then {} else Values(c, n - 1) + {c[n - 1]}
  }

  lemma {:induction false} DistinctSize(c: seq<nat>, n: nat)
    requires n <= |c|
    ensures forall x :: x in Values(c, n) ==> exists k :: 0 <= k < n && c[k] == x
    ensures (forall k, m :: 0 <= k < m < n ==> c[k] != c[m]) ==> |Values(c, n)| == n
  {
    if n > 0 {
      DistinctSize(c, n - 1);
      if c[n - 1] in Values(c, n - 1) {
        var k :| 0 <= k < n - 1 && c[k] == c[n - 1];
      }
    }
  }

  /** Pigeonhole: n picks that all avoid item i repeat one, with no repeat of it in between. */
  lemma {:induction false} Repeat(c: seq<nat>, n: nat, i: nat, seen: nat) returns (a: nat, b: nat)
    requires |c| == n && i < n && seen <= n
    requires forall k :: 0 <= k < n ==> c[k] < n && c[k] != i
    requires forall k, m :: 0 <= k < m < seen ==> c[k] != c[m]
    ensures a < b < n && c[a] == c[b] && forall k :: a < k < b ==> c[k] != c[b]
    decreases n - seen
  {
    if seen == n {
      DistinctSize(c, n);
      RangeSize(n);
      SubsetSize(Values(c, n), Range(n) - {i});
      assert false;
    } else if k :| 0 <= k < seen && c[k] == c[seen] {
      a, b := k, seen;
    } else {
      a, b := Repeat(c, n, i, seen + 1);
    }
  }

  /** A due item that is passed over stays due. */
  lemma StillDue(items: seq<Item>, times: seq<int>, i: nat, k: nat)
    requires i < |items| && k < |times| && items[i].due <= times[k]
    requires forall m :: 0 <= m < k ==> Choice(items, times, m) != Some(i)
    ensures After(items, times[..k])[i].due == items[i].due && Choice(items, times, k).Some?
  {
    DueSince(items, times, i, 0, k);
    assert times[..0] == [];
  }

  /** Selection number b preferred item j, last chosen at selection a, to the due item i. */
  lemma PreferredTwice(items: seq<Item>, times: seq<int>, i: nat, j: nat, a: nat, b: nat)
    requires ValidItems(items) && forall m :: 0 <= m < |times| ==> times[m] >= 0
    requires i < |items| && j < |items| && a < b < |times| && items[i].due <= times[b]
    requires Choice(items, times, a) == Some(j) && Choice(items, times, b) == Some(j)
    requires forall m :: a < m < b ==> Choice(items, times, m) != Some(j)
    requires forall m :: 0 <= m < b ==> Choice(items, times, m) != Some(i)
    ensures (times[b] - times[a] - items[j].interval) * items[i].interval
            >= (times[b] - items[i].due) * items[j].interval
  {
    hide After, Best, MoreOverdue;
    DueWhenChosen(items, times, a);
    DueSince(items, times, j, a + 1, b);
    StillDue(items, times, i, b);
    AfterShape(items, times[..b]);
    NotBeaten(After(items, times[..b]), times[b], i);
  }

  /** No due item is more overdue than the one selected. */
  lemma NotBeaten(items: seq<Item>, now: int, i: nat)
    requires ValidItems(items) && i < |items| && items[i].due <= now && Best(items, now, |items|).Some?
    ensures var b := items[Best(items, now, |items|).value];
            (now - b.due) * items[i].interval >= (now - items[i].due) * b.interval
  {
    hide Best;
    BestIsFirstMostOverdue(items, now, |items|);
    assert !MoreOverdue(items[i], items[Best(items, now, |items|).value], now);
  }

  lemma {:induction false} Elapsed(times: seq<int>, gap: int, a: nat, b: nat)
    requires a <= b < |times| && forall k :: 0 < k < |times| ==> times[k] - times[k - 1] <= gap
    ensures times[b] - times[a] <= (b - a) * gap
  {
    if a < b {
      Elapsed(times, gap, a, b - 1);
      assert (b - a) * gap == (b - 1 - a) * gap + gap;
    }
  }

  /** Bounded waiting. With n items and selections at most `gap` apart, an item that is due at the
      first selection and whose lateness there exceeds the threshold is among the next n choices. */
  lemma BoundedWaiting(items: seq<Item>, times: seq<int>, i: nat, gap: int) returns (k: nat)
    requires ValidItems(items) && i < |items| == |times| && gap >= 0
    requires forall m :: 0 <= m < |times| ==> times[m] >= 0
    requires forall m :: 0 < m < |times| ==> 0 <= times[m] - times[m - 1] <= gap
    requires items[i].due <= times[0]
    requires forall j :: 0 <= j < |items| && j != i ==>
               (times[0] - items[i].due + items[i].interval) * items[j].interval
               > (|items| - 1) * gap * items[i].interval
    ensures k < |items| && Choice(items, times, k) == Some(i)
  {
    var n := |items|;
    if m :| 0 <= m < n && Choice(items, times, m) == Some(i) {
      return m;
    }
    forall m | 0 <= m < n
      ensures Choice(items, times, m).Some?
    {
      Later(times, gap);
      StillDue(items, times, i, m);
    }
    var c := seq(n, m requires 0 <= m < n => Choice(items, times, m).value);
    var a, b := Repeat(c, n, i, 0);
    var j := c[b];
    hide Choice;
    forall m | a < m < b
      ensures Choice(items, times, m) != Some(j)
    {
      assert c[m] == Choice(items, times, m).value;
    }
    PassedOver(items, times, i, j, a, b, gap);
    assert false;
  }

  /** An item that is passed over while another is chosen twice is not that late. */
  lemma PassedOver(items: seq<Item>, times: seq<int>, i: nat, j: nat, a: nat, b: nat, gap: int)
    requires ValidItems(items) && i < |items| == |times| && j < |items| && a < b < |times| && gap >= 0
    requires forall m :: 0 <= m < |times| ==> times[m] >= 0
    requires forall m :: 0 < m < |times| ==> 0 <= times[m] - times[m - 1] <= gap
    requires items[i].due <= times[0]
    requires Choice(items, times, a) == Some(j) && Choice(items, times, b) == Some(j)
    requires forall m :: a < m < b ==> Choice(items, times, m) != Some(j)
    requires forall m :: 0 <= m < b ==> Choice(items, times, m) != Some(i)
    ensures (times[0] - items[i].due + items[i].interval) * items[j].interval
            <= (|items| - 1) * gap * items[i].interval
  {
    hide Choice;
    Later(times, gap);
    PreferredTwice(items, times, i, j, a, b);
    Elapsed(times, gap, a, b);
    TooLate(times[b] - times[a], times[b] - items[i].due, times[0] - items[i].due,
            items[i].interval, items[j].interval, |items|, gap, b - a);
  }

  lemma {:induction false} Later(times: seq<int>, gap: int)
    requires forall m :: 0 < m < |times| ==> 0 <= times[m] - times[m - 1] <= gap
    ensures forall m :: 0 <= m < |times| ==> times[0] <= times[m]
  {
    if |times| > 1 {
      Later(times[..|times| - 1], gap);
      assert times[..|times| - 1][|times| - 2] == times[|times| - 2];
    }
  }

  /** The arithmetic that rules the repeat out. */
  lemma TooLate(span: int, lateAtB: int, lateAt0: int, ii: int, ij: int, n: int, gap: int, steps: int)
    requires ii > 0 && ij > 0 && gap >= 0 && 0 < steps <= n - 1 && span <= steps * gap
    requires 0 <= lateAt0 <= lateAtB
    requires (span - ij) * ii >= lateAtB * ij
    ensures (lateAt0 + ii) * ij <= (n - 1) * gap * ii
  {
    Scale(lateAt0, lateAtB, ij);
    if gap > 0 { Scale(steps, n - 1, gap); }
    Scale(span, (n - 1) * gap, ii);
    Distribute(lateAt0, ii, ij);
    Distribute(span, -ij, ii);
    Opposite(ij, ii);
  }

  lemma Distribute(a: int, b: int, c: int)
    ensures (a + b) * c == a * c + b * c
  {
  }

  lemma Opposite(a: int, b: int)
    ensures -a * b == -(b * a)
  {
  }

  /** No PID starves: with every other interval at least `shortest`, a due PID whose lateness plus one
      interval exceeds (n - 1) gaps, scaled by its interval over the shortest, is among the next n choices. */
  lemma NoStarvation(items: seq<Item>, times: seq<int>, i: nat, gap: int, shortest: int) returns (k: nat)
    requires ValidItems(items) && i < |items| == |times| && gap >= 0
    requires forall m :: 0 <= m < |times| ==> times[m] >= 0
    requires forall m :: 0 < m < |times| ==> 0 <= times[m] - times[m - 1] <= gap
    requires shortest > 0 && forall j :: 0 <= j < |items| && j != i ==> items[j].interval >= shortest
    requires items[i].due <= times[0]
    requires (times[0] - items[i].due + items[i].interval) * shortest > (|items| - 1) * gap * items[i].interval
    ensures k < |items| && Choice(items, times, k) == Some(i)
  {
    var late := times[0] - items[i].due + items[i].interval;
    forall j | 0 <= j < |items| && j != i
      ensures late * items[j].interval > (|items| - 1) * gap * items[i].interval
    {
      Scale(shortest, items[j].interval, late);
      assert shortest * late == late * shortest && items[j].interval * late == late * items[j].interval;
    }
    k := BoundedWaiting(items, times, i, gap);
  }
}
