/** Poll scheduling: each PID has an interval, the PID most overdue relative to its own interval
    goes next, and a value is fresh for three intervals after its last accepted answer. */
module Poller {
  import opened Contract
  import opened Options

  datatype Item = Item(pid: byte, interval: int, due: int, lastAnswer: int)

  /** What every reachable poller satisfies: PIDs are unique, intervals positive, and due times
      non-negative (the source uses -1 as "none yet"). */
  ghost predicate ValidItems(items: seq<Item>) {
    && (forall i :: 0 <= i < |items| ==> items[i].interval > 0 && items[i].due >= 0)
    && (forall i, j :: 0 <= i < j < |items| ==> items[i].pid != items[j].pid)
  }

  /** Position of a PID, or the number of items if it is not scheduled. */
  function Find(items: seq<Item>, pid: byte): (i: nat)
    ensures i <= |items|
    ensures i < |items| ==> items[i].pid == pid
    ensures forall k :: 0 <= k < i ==> items[k].pid != pid
  {
    if items == [] || items[0].pid == pid then 0 else 1 + Find(items[1..], pid)
  }

  predicate Scheduled(items: seq<Item>, pid: byte) { Find(items, pid) < |items| }

  function Added(items: seq<Item>, pid: byte, interval: int): seq<Item> {
    if Scheduled(items, pid) then items else items + [Item(pid, interval, 0, -1)]
  }

  function Removed(items: seq<Item>, pid: byte): seq<Item> {
    var i := Find(items, pid);
    if i < |items| then items[..i] + items[i + 1..] else items
  }

  function Requested(items: seq<Item>, pid: byte, now: int): seq<Item> {
    var i := Find(items, pid);
    if i < |items| then items[i := items[i].(due := now + items[i].interval)] else items
  }

  function Answered(items: seq<Item>, pid: byte, now: int): seq<Item> {
    var i := Find(items, pid);
    if i < |items| then items[i := items[i].(lastAnswer := now)] else items
  }

  predicate Fresh(items: seq<Item>, pid: byte, now: int) {
    var i := Find(items, pid);
    i < |items| && items[i].lastAnswer >= 0 && now - items[i].lastAnswer <= 3 * items[i].interval
  }

  /** a's lateness over its own interval exceeds b's, compared without dividing. */
  predicate MoreOverdue(a: Item, b: Item, now: int) {
    (now - a.due) * b.interval > (now - b.due) * a.interval
  }

  /** The scan for the next PID over the first `n` items: the index of the current best. */
  function Best(items: seq<Item>, now: int, n: nat): (b: Option<nat>)
    requires n <= |items|
    ensures b.Some? ==> b.value < n && items[b.value].due <= now
    ensures b.None? <==> forall i :: 0 <= i < n ==> now < items[i].due
  {
    if n == 0 then None
    else
      var best := Best(items, now, n - 1);
      if now < items[n - 1].due then best
      else if best.None? || MoreOverdue(items[n - 1], items[best.value], now) then Some(n - 1)
      else best
  }

  /** Among the first `n` items no due one is more overdue than item b, and every earlier one is strictly less. */
  ghost predicate FirstAmong(items: seq<Item>, now: int, b: nat, n: nat)
    requires b < n <= |items|
  {
    && items[b].due <= now
    && (forall j :: 0 <= j < n && items[j].due <= now ==> !MoreOverdue(items[j], items[b], now))
    && (forall j :: 0 <= j < b && items[j].due <= now ==> MoreOverdue(items[b], items[j], now))
  }

  ghost predicate FirstMostOverdue(items: seq<Item>, now: int, b: nat)
    requires b < |items|
  {
    FirstAmong(items, now, b, |items|)
  }

  /** Cross-multiplied comparison of lateness ratios is transitive. */
  lemma RatioTransitive(x: int, ix: int, y: int, iy: int, z: int, iz: int)
    requires ix > 0 && iy > 0 && iz > 0 && x >= 0 && y >= 0 && z >= 0
    requires x * iy >= y * ix && y * iz >= z * iy
    ensures x * iz >= z * ix
    ensures x * iy > y * ix || y * iz > z * iy ==> x * iz > z * ix
  {
    Scale(y * ix, x * iy, iz);
    Scale(z * iy, y * iz, ix);
    Swap(x, iy, iz);
    Swap(z, iy, ix);
    Swap(y, ix, iz);
    Cancel(z * ix, x * iz, iy);
  }

  lemma Swap(a: int, b: int, c: int)
    ensures (a * b) * c == (a * c) * b
  {
  }

  lemma Scale(a: int, b: int, k: int)
    requires k > 0
    ensures a <= b ==> a * k <= b * k
    ensures a < b ==> a * k < b * k
  {
  }

  lemma Cancel(a: int, b: int, k: int)
    requires k > 0
    ensures a * k <= b * k ==> a <= b
    ensures a * k < b * k ==> a < b
  {
    Scale(b, a, k);
  }

  /** An item that beats the best so far beats every due item before it. */
  lemma BeatsAll(items: seq<Item>, now: int, b: nat, n: nat)
    requires ValidItems(items) && b < n < |items| && FirstAmong(items, now, b, n)
    requires items[n].due <= now && MoreOverdue(items[n], items[b], now)
    ensures FirstAmong(items, now, n, n + 1)
  {
    var x, y := items[n], items[b];
    forall j | 0 <= j < n && items[j].due <= now
      ensures MoreOverdue(x, items[j], now) && !MoreOverdue(items[j], x, now)
    {
      var z := items[j];
      assert !MoreOverdue(z, y, now);
      RatioTransitive(now - x.due, x.interval, now - y.due, y.interval, now - z.due, z.interval);
    }
    hide MoreOverdue;
  }

  /** The scan finds the first item of maximal lateness relative to its interval. */
  lemma {:induction false} BestIsFirstMostOverdue(items: seq<Item>, now: int, n: nat)
    requires n <= |items| && ValidItems(items)
    ensures var b := Best(items, now, n);
            b.Some? ==> FirstAmong(items, now, b.value, n)
  {
    if n > 0 {
      BestIsFirstMostOverdue(items, now, n - 1);
      var before := Best(items, now, n - 1);
      if before.Some? && items[n - 1].due <= now && MoreOverdue(items[n - 1], items[before.value], now) {
        BeatsAll(items, now, before.value, n - 1);
      }
      StillFirst(items, now, n);
    }
  }

  lemma StillFirst(items: seq<Item>, now: int, n: nat)
    requires 0 < n <= |items|
    ensures var b := Best(items, now, n - 1);
            b.Some? && FirstAmong(items, now, b.value, n - 1) && Best(items, now, n) == b ==>
              FirstAmong(items, now, b.value, n)
    ensures Best(items, now, n - 1).None? && Best(items, now, n).Some? ==> FirstAmong(items, now, n - 1, n)
  {
    assert !MoreOverdue(items[n - 1], items[n - 1], now);
    hide MoreOverdue;
  }

  lemma SelectedIsFirst(items: seq<Item>, now: int)
    requires ValidItems(items)
    ensures var b := Best(items, now, |items|);
            b.Some? ==> FirstMostOverdue(items, now, b.value) && Find(items, items[b.value].pid) == b.value
  {
    hide Best, FirstAmong;
    BestIsFirstMostOverdue(items, now, |items|);
    var b := Best(items, now, |items|);
    if b.Some? {
      FindUnique(items, items[b.value].pid, b.value);
    }
  }

  /** Earliest time any PID becomes due; `now` if one already is, or nothing is scheduled. */
  function Deadline(items: seq<Item>, now: int): int {
    if items == [] then now else var e := Earliest(items); if e < now then now else e
  }

  function Earliest(items: seq<Item>): (e: int)
    requires items != []
    ensures forall i :: 0 <= i < |items| ==> e <= items[i].due
    ensures exists i :: 0 <= i < |items| && e == items[i].due
  {
    if |items| == 1 then items[0].due
    else
      var rest := Earliest(items[..|items| - 1]);
      if items[|items| - 1].due < rest then items[|items| - 1].due else rest
  }

  /** Selection and deadline agree: the deadline is never past; unless nothing is scheduled, nothing is selected
      exactly when it lies ahead, no item is due at any instant before it, and one is due at it. */
  lemma SelectionAgreesWithDeadline(items: seq<Item>, now: int)
    ensures Deadline(items, now) >= now && (items == [] ==> Deadline(items, now) == now)
    ensures items != [] ==> (Best(items, now, |items|).None? <==> Deadline(items, now) > now)
    ensures forall t :: now <= t < Deadline(items, now) ==> Best(items, t, |items|).None?
    ensures items != [] ==> Best(items, Deadline(items, now), |items|).Some?
  {
    if items != [] {
      var d := Deadline(items, now);
      var i :| 0 <= i < |items| && Earliest(items) == items[i].due;
      assert !(d < items[i].due);
    }
  }

  class Poller {
    var items: seq<Item>
    var unanswered: nat

    constructor ()
      ensures items == [] && unanswered == 0
    {
      items, unanswered := [], 0;
    }

    method Clear()
      modifies this
      ensures items == [] && unanswered == 0
    {
      items := [];
      unanswered := 0;
    }

    method FindIndex(pid: byte) returns (i: nat)
      ensures i == Find(items, pid)
    {
      i := 0;
      while i < |items| && items[i].pid != pid
        invariant 0 <= i <= |items|
        invariant forall k :: 0 <= k < i ==> items[k].pid != pid
      {
        i := i + 1;
      }
      FindUnique(items, pid, i);
    }

    method Add(pid: byte, intervalMs: int)
      modifies this`items
      ensures items == Added(old(items), pid, intervalMs)
    {
      var i := FindIndex(pid);
      if i < |items| {
        return;
      }
      items := items + [Item(pid, intervalMs, 0, -1)];
    }

    method Remove(pid: byte)
      modifies this`items
      ensures items == Removed(old(items), pid)
    {
      var i := FindIndex(pid);
      if i < |items| {
        items := items[..i] + items[i + 1..];
      }
    }

    /** Selects the PID whose request is most overdue relative to its interval, if any is due. */
    method NextDue(now: int) returns (pid: Option<byte>)
      ensures var b := Best(items, now, |items|); pid == if b.None? then None else Some(items[b.value].pid)
      ensures ValidItems(items) && pid.Some? ==>
                var b := Find(items, pid.value); b < |items| && FirstMostOverdue(items, now, b)
    {
      hide ValidItems, FirstMostOverdue, Find;
      var best: Option<nat> := None;
      var i := 0;
      while i < |items|
        invariant 0 <= i <= |items|
        invariant best == Best(items, now, i)
      {
        if now >= items[i].due {
          if best.None? || (now - items[i].due) * items[best.value].interval
                           > (now - items[best.value].due) * items[i].interval {
            best := Some(i);
          }
        }
        i := i + 1;
      }
      pid := if best.None? then None else Some(items[best.value].pid);
      if best.Some? && ValidItems(items) {
        SelectedIsFirst(items, now);
      }
    }

    method NextDeadline(now: int) returns (t: int)
      requires forall i :: 0 <= i < |items| ==> items[i].due >= 0
      ensures t == Deadline(items, now)
    {
      var earliest := -1;
      var i := 0;
      while i < |items|
        invariant 0 <= i <= |items|
        invariant i == 0 ==> earliest == -1
        invariant i > 0 ==> earliest == Earliest(items[..i]) && earliest >= 0
      {
        assert items[..i + 1][..i] == items[..i];
        if earliest < 0 || items[i].due < earliest {
          earliest := items[i].due;
        }
        i := i + 1;
      }
      assert items[..|items|] == items;
      if earliest < 0 {
        return now;
      }
      t := if earliest < now then now else earliest;
    }

    method MarkRequested(pid: byte, now: int)
      modifies this
      ensures items == Requested(old(items), pid, now)
      ensures unanswered == old(unanswered) + if Scheduled(old(items), pid) then 1 else 0
    {
      var i := FindIndex(pid);
      if i < |items| {
        items := items[i := items[i].(due := now + items[i].interval)];
        unanswered := unanswered + 1;
      }
    }

    method MarkAnswered(pid: byte, now: int)
      modifies this
      ensures items == Answered(old(items), pid, now)
      ensures unanswered == if Scheduled(old(items), pid) then 0 else old(unanswered)
    {
      var i := FindIndex(pid);
      if i < |items| {
        items := items[i := items[i].(lastAnswer := now)];
        unanswered := 0;
      }
    }

    method IsFresh(pid: byte, now: int) returns (fresh_: bool)
      ensures fresh_ == Fresh(items, pid, now)
    {
      var i := FindIndex(pid);
      fresh_ := i < |items| && items[i].lastAnswer >= 0 && now - items[i].lastAnswer <= 3 * items[i].interval;
    }
  }

  lemma FindUnique(items: seq<Item>, pid: byte, i: nat)
    requires i <= |items| && (i < |items| ==> items[i].pid == pid)
    requires forall k :: 0 <= k < i ==> items[k].pid != pid
    ensures Find(items, pid) == i
  {
  }
}
