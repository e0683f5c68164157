/** Bounded waiting for the plugin itself: while the vehicle answers to its PIDs, turn after turn of the
    loop is one selection after another, so no scheduled PID waits beyond an explicit threshold. */
module SessionFairness {
  import opened Contract
  import opened J1979
  import opened J1979Client
  import opened Options
  import opened Poller
  import opened PollerFairness
  import opened Session
  import opened SessionLaws

  /** The same PIDs, intervals and due times; when they were last answered does not matter to selection. */
  predicate SameSchedule(a: seq<Item>, b: seq<Item>) {
    && |a| == |b|
    && forall i :: 0 <= i < |a| ==> a[i].pid == b[i].pid && a[i].interval == b[i].interval && a[i].due == b[i].due
  }

  lemma {:induction false} SameBest(a: seq<Item>, b: seq<Item>, now: int, n: nat)
    requires SameSchedule(a, b) && n <= |a|
    ensures Best(a, now, n) == Best(b, now, n)
  {
    if n > 0 {
      SameBest(a, b, now, n - 1);
    }
  }

  lemma SameSelected(a: seq<Item>, b: seq<Item>, now: int)
    requires SameSchedule(a, b)
    ensures SameSchedule(Selected(a, now), Selected(b, now))
  {
    hide Best;
    SameBest(a, b, now, |a|);
  }

  /** The turn got a filler, which takes its PID off the schedule. */
  predicate GotFiller(s: Session, in_: Input) {
    Due(s, in_).Some? && var v := ReadValue(Due(s, in_).value, in_); v.Some? && !Plausible(Due(s, in_).value, v.value)
  }

  /** The vehicle is there at the start of every turn and no PID is dropped. */
  ghost predicate Steady(cfg: IceConfig, s: Session, inputs: seq<Input>) {
    forall k :: 0 <= k < |inputs| ==>
      var sk := RunFrom(cfg, s, inputs[..k]); sk.discovered && !GotFiller(sk, inputs[k])
  }

  /** Turns begin in order and at most `gap` milliseconds apart. */
  predicate Spaced(inputs: seq<Input>, gap: int) {
    forall m :: 0 < m < |inputs| ==> 0 <= Ms(inputs[m].nowAt) - Ms(inputs[m - 1].nowAt) <= gap
  }

  function TurnTimes(inputs: seq<Input>): seq<int> {
    seq(|inputs|, k requires 0 <= k < |inputs| => Ms(inputs[k].nowAt))
  }

  lemma {:induction false} RunFromOneMore(cfg: IceConfig, s: Session, inputs: seq<Input>, in_: Input)
    ensures RunFrom(cfg, s, inputs + [in_]) == Iterate(cfg, RunFrom(cfg, s, inputs), in_).0
    decreases |inputs|
  {
    hide Iterate;
    if inputs == [] {
      assert ([] + [in_])[1..] == [];
      assert RunFrom(cfg, s, [] + [in_]) == RunFrom(cfg, Iterate(cfg, s, in_).0, []);
    } else {
      assert (inputs + [in_])[1..] == inputs[1..] + [in_];
      RunFromOneMore(cfg, Iterate(cfg, s, inputs[0]).0, inputs[1..], in_);
    }
  }

  /** A turn with the vehicle there and no filler reschedules just the PID the poller selects. */
  lemma TurnSelects(cfg: IceConfig, s: Session, in_: Input)
    requires ValidConfig(cfg) && SessionInv(cfg, s) && s.discovered && !GotFiller(s, in_) && in_.nowAt >= 0
    ensures SameSchedule(Iterate(cfg, s, in_).0.items, Selected(s.items, Ms(in_.nowAt)))
  {
    hide Best, ReadValue, Plausible, StateOf, Find, Watched;
    SelectedIsRequested(s.items, Ms(in_.nowAt));
    WatchedKeeps(s, in_.pollSeen);
    if Due(s, in_).Some? {
      var pid := Due(s, in_).value;
      AskedInv(cfg, s, in_);
      WatchedKeeps(s.(items := Requested(s.items, pid, Ms(in_.nowAt)), unanswered := s.unanswered + 1), in_.pollSeen);
    }
  }

  /** Turn by turn, the session's schedule is the fair scheduler's. */
  lemma {:induction false} StretchSelects(cfg: IceConfig, s: Session, inputs: seq<Input>, k: nat)
    requires ValidConfig(cfg) && SessionInv(cfg, s) && ClockFromZero(inputs) && Steady(cfg, s, inputs) && k <= |inputs|
    ensures SessionInv(cfg, RunFrom(cfg, s, inputs[..k]))
    ensures SameSchedule(RunFrom(cfg, s, inputs[..k]).items, After(s.items, TurnTimes(inputs)[..k]))
  {
    hide Iterate, SessionInv, Selected, GotFiller;
    if k > 0 {
      StretchSelects(cfg, s, inputs, k - 1);
      var sk := RunFrom(cfg, s, inputs[..k - 1]);
      assert inputs[..k] == inputs[..k - 1] + [inputs[k - 1]];
      RunFromOneMore(cfg, s, inputs[..k - 1], inputs[k - 1]);
      IterateKeeps(cfg, sk, inputs[k - 1]);
      TurnSelects(cfg, sk, inputs[k - 1]);
      var times := TurnTimes(inputs);
      assert times[..k][..k - 1] == times[..k - 1];
      SameSelected(sk.items, After(s.items, times[..k - 1]), times[k - 1]);
    } else {
      assert inputs[..0] == [] && TurnTimes(inputs)[..0] == [];
    }
  }

  /** Over any stretch of as many turns as PIDs are scheduled, at most `gap` milliseconds apart, with the
      vehicle there and no PID dropped: a due PID of tier T that is late by more than T times the
      difference between n - 1 gaps and the fast period is requested in one of these turns. */
  lemma NoPidStarves(cfg: IceConfig, s: Session, inputs: seq<Input>, pid: byte, gap: int) returns (k: nat)
    requires ValidConfig(cfg) && SessionInv(cfg, s) && Scheduled(s.items, pid) && gap >= 0
    requires |inputs| == |s.items| && ClockFromZero(inputs) && Steady(cfg, s, inputs)
    requires Spaced(inputs, gap)
    requires var due := s.items[Find(s.items, pid)].due;
             && due <= Ms(inputs[0].nowAt)
             && Ms(inputs[0].nowAt) - due > TierOf(pid) * ((|inputs| - 1) * gap - cfg.fastMs)
    ensures k < |inputs| && Due(RunFrom(cfg, s, inputs[..k]), inputs[k]) == Some(pid)
  {
    hide Best, Find, TierOf, RunFrom, GotFiller, Choice, SessionInv, Steady, Due, ClockFromZero;
    var i, times := Find(s.items, pid), TurnTimes(inputs);
    Intervals(cfg, s, pid);
    TimesFromZero(inputs);
    Threshold(times[0] - s.items[i].due, TierOf(pid), cfg.fastMs, |inputs| - 1, gap);
    k := NoStarvation(s.items, times, i, gap, cfg.fastMs);
    StretchSelects(cfg, s, inputs, k);
    ChoiceAt(cfg, s, inputs, k, i);
  }

  lemma TimesFromZero(inputs: seq<Input>)
    requires ClockFromZero(inputs)
    ensures forall k :: 0 <= k < |inputs| ==> TurnTimes(inputs)[k] >= 0
  {
  }

  /** A PID's interval is its tier's multiple of the fast period, which is the shortest there is. */
  lemma Intervals(cfg: IceConfig, s: Session, pid: byte)
    requires ValidConfig(cfg) && SessionInv(cfg, s) && Scheduled(s.items, pid)
    ensures ValidItems(s.items) && s.items[Find(s.items, pid)].interval == cfg.fastMs * TierOf(pid)
    ensures forall j :: 0 <= j < |s.items| ==> s.items[j].interval >= cfg.fastMs
  {
    hide Find, TierOf;
    assert s.items[Find(s.items, pid)] in s.items;
    forall j | 0 <= j < |s.items|
      ensures s.items[j].interval >= cfg.fastMs
    {
      assert s.items[j] in s.items;
      AtLeastOnce(cfg.fastMs, TierOf(s.items[j].pid));
    }
  }

  lemma AtLeastOnce(fast: int, tier: nat)
    requires fast > 0 && fast * tier > 0
    ensures fast * tier >= fast
  {
    if tier > 0 { Scale(1, tier, fast); }
  }

  lemma Threshold(late: int, tier: int, fast: int, others: int, gap: int)
    requires fast > 0 && late > tier * (others * gap - fast)
    ensures (late + fast * tier) * fast > others * gap * (fast * tier)
  {
    assert late + fast * tier > others * gap * tier;
    Scale(others * gap * tier, late + fast * tier, fast);
    Swap(others * gap, fast, tier);
    assert others * gap * tier * fast == others * gap * (fast * tier);
  }

  lemma ChoiceAt(cfg: IceConfig, s: Session, inputs: seq<Input>, k: nat, i: nat)
    requires ValidItems(s.items) && ClockFromZero(inputs) && k < |inputs| && i < |s.items|
    requires SameSchedule(RunFrom(cfg, s, inputs[..k]).items, After(s.items, TurnTimes(inputs)[..k]))
    requires Choice(s.items, TurnTimes(inputs), k) == Some(i)
    ensures Due(RunFrom(cfg, s, inputs[..k]), inputs[k]) == Some(s.items[i].pid)
  {
    hide RunFrom, After, Best;
    var sk := RunFrom(cfg, s, inputs[..k]);
    SameBest(sk.items, After(s.items, TurnTimes(inputs)[..k]), Ms(inputs[k].nowAt), |sk.items|);
    AfterShape(s.items, TurnTimes(inputs)[..k]);
  }

  // ---------------------------------------------------------------- how long a PID can wait

  lemma {:induction false} RunFromParts(cfg: IceConfig, s: Session, a: seq<Input>, b: seq<Input>)
    ensures RunFrom(cfg, s, a + b) == RunFrom(cfg, RunFrom(cfg, s, a), b)
    decreases |b|
  {
    hide Iterate;
    if b == [] {
      assert a + b == a;
    } else {
      var early, last := b[..|b| - 1], b[|b| - 1];
      assert a + b == (a + early) + [last] && b == early + [last];
      RunFromOneMore(cfg, s, a + early, last);
      RunFromOneMore(cfg, RunFrom(cfg, s, a), early, last);
      RunFromParts(cfg, s, a, early);
    }
  }

  lemma RunOfPart(cfg: IceConfig, s: Session, inputs: seq<Input>, a: nat, n: nat, k: nat)
    requires a + n <= |inputs| && k < n
    ensures RunFrom(cfg, RunFrom(cfg, s, inputs[..a]), inputs[a..a + n][..k]) == RunFrom(cfg, s, inputs[..a + k])
    ensures inputs[a..a + n][k] == inputs[a + k]
  {
    hide RunFrom;
    assert inputs[..a] + inputs[a..a + n][..k] == inputs[..a + k];
    RunFromParts(cfg, s, inputs[..a], inputs[a..a + n][..k]);
  }

  /** A stretch of a steady stretch is steady. */
  lemma SteadyPart(cfg: IceConfig, s: Session, inputs: seq<Input>, a: nat, n: nat)
    requires Steady(cfg, s, inputs) && a + n <= |inputs|
    ensures Steady(cfg, RunFrom(cfg, s, inputs[..a]), inputs[a..a + n])
  {
    hide GotFiller, RunFrom;
    var sa, part := RunFrom(cfg, s, inputs[..a]), inputs[a..a + n];
    forall k: nat | k < |part|
      ensures RunFrom(cfg, sa, part[..k]).discovered && !GotFiller(RunFrom(cfg, sa, part[..k]), part[k])
    {
      RunOfPart(cfg, s, inputs, a, n, k);
      assert part[k] == inputs[a + k];
    }
  }

  /** The first turn at or after the given time, if the stretch lasts that long. */
  lemma {:induction false} FirstAfter(inputs: seq<Input>, gap: int, x: int, n: nat) returns (a: nat)
    requires n < |inputs| && Ms(inputs[n].nowAt) >= x
    requires Spaced(inputs, gap)
    ensures a <= n && Ms(inputs[a].nowAt) >= x && (a > 0 ==> Ms(inputs[a].nowAt) < x + gap)
    ensures forall m :: 0 <= m < a ==> Ms(inputs[m].nowAt) < x
  {
    if m :| 0 <= m < n && Ms(inputs[m].nowAt) >= x {
      a := FirstAfter(inputs, gap, x, m);
    } else {
      a := n;
      assert n > 0 ==> Ms(inputs[n - 1].nowAt) < x;
    }
  }

  lemma {:induction false} TurnsTake(inputs: seq<Input>, gap: int, a: nat, b: nat)
    requires a <= b < |inputs|
    requires Spaced(inputs, gap)
    ensures Ms(inputs[a].nowAt) <= Ms(inputs[b].nowAt) <= Ms(inputs[a].nowAt) + (b - a) * gap
  {
    if a < b {
      TurnsTake(inputs, gap, a, b - 1);
      assert (b - a) * gap == (b - 1 - a) * gap + gap;
    }
  }

  /** When a PID that falls due at `due` becomes too late to be passed over again: at once, or tier times the
      difference between n - 1 gaps and the fast period later. */
  function Critical(cfg: IceConfig, due: int, tier: nat, n: int, gap: int): int {
    var late := tier * ((n - 1) * gap - cfg.fastMs);
    if late < 0 then due else due + late + 1
  }

  /** The PID is not requested in the first `a` turns. */
  ghost predicate NotRequested(cfg: IceConfig, s: Session, inputs: seq<Input>, pid: byte, a: nat)
    requires a <= |inputs|
  {
    forall k :: 0 <= k < a ==> Due(RunFrom(cfg, s, inputs[..k]), inputs[k]) != Some(pid)
  }

  lemma {:induction false} FirstRequest(cfg: IceConfig, s: Session, inputs: seq<Input>, pid: byte, a: nat)
      returns (m: nat)
    requires a <= |inputs|
    ensures m <= a && NotRequested(cfg, s, inputs, pid, m)
    ensures m < a ==> Due(RunFrom(cfg, s, inputs[..m]), inputs[m]) == Some(pid)
  {
    hide Due, RunFrom;
    m := 0;
    if a > 0 {
      m := FirstRequest(cfg, s, inputs, pid, a - 1);
      if m == a - 1 && Due(RunFrom(cfg, s, inputs[..m]), inputs[m]) != Some(pid) {
        m := a;
      }
    }
  }

  /** Until a PID is requested its schedule entry does not move. */
  lemma Unmoved(cfg: IceConfig, s: Session, inputs: seq<Input>, pid: byte, a: nat)
    requires ValidConfig(cfg) && SessionInv(cfg, s) && ClockFromZero(inputs) && Steady(cfg, s, inputs)
    requires a <= |inputs| && Scheduled(s.items, pid)
    requires NotRequested(cfg, s, inputs, pid, a)
    ensures var sa := RunFrom(cfg, s, inputs[..a]);
            && SessionInv(cfg, sa) && |sa.items| == |s.items| && Find(sa.items, pid) == Find(s.items, pid)
            && sa.items[Find(s.items, pid)].due == s.items[Find(s.items, pid)].due
  {
    hide RunFrom, GotFiller, Best, After, Steady;
    var i, times := Find(s.items, pid), TurnTimes(inputs);
    forall k | 0 <= k < a
      ensures Choice(s.items, times, k) != Some(i)
    {
      StretchSelects(cfg, s, inputs, k);
      if Choice(s.items, times, k) == Some(i) {
        ChoiceAt(cfg, s, inputs, k, i);
      }
    }
    StretchSelects(cfg, s, inputs, a);
    DueSince(s.items, times, i, 0, a);
    StartsThere(s.items, times);
    TimesFromZero(inputs);
    AfterShape(s.items, times[..a]);
    SameFind(s.items, RunFrom(cfg, s, inputs[..a]).items, pid);
  }

  lemma StartsThere(items: seq<Item>, times: seq<int>)
    ensures After(items, times[..0]) == items
  {
    assert times[..0] == [];
  }

  lemma SameFind(a: seq<Item>, b: seq<Item>, pid: byte)
    requires |a| == |b| && forall i :: 0 <= i < |a| ==> a[i].pid == b[i].pid
    ensures Find(a, pid) == Find(b, pid)
  {
    FindUnique(b, pid, Find(a, pid));
  }

  /** By when a PID is requested at the latest. */
  function Latest(cfg: IceConfig, s: Session, inputs: seq<Input>, pid: byte, gap: int): int
    requires Scheduled(s.items, pid) && inputs != []
  {
    var x := Critical(cfg, s.items[Find(s.items, pid)].due, TierOf(pid), |s.items|, gap);
    (if x < Ms(inputs[0].nowAt) then Ms(inputs[0].nowAt) else x) + |s.items| * gap
  }

  /** From a turn at which the PID is critical and has not been requested yet, n turns suffice. */
  lemma RequestedFrom(cfg: IceConfig, s: Session, inputs: seq<Input>, pid: byte, gap: int, a: nat) returns (k: nat)
    requires ValidConfig(cfg) && SessionInv(cfg, s) && Scheduled(s.items, pid) && gap >= 0
    requires ClockFromZero(inputs) && Steady(cfg, s, inputs) && a + |s.items| <= |inputs|
    requires Spaced(inputs, gap)
    requires NotRequested(cfg, s, inputs, pid, a)
    requires Ms(inputs[a].nowAt) >= Critical(cfg, s.items[Find(s.items, pid)].due, TierOf(pid), |s.items|, gap)
    ensures a <= k < a + |s.items| && Due(RunFrom(cfg, s, inputs[..k]), inputs[k]) == Some(pid)
  {
    hide Best, Find, TierOf, RunFrom, GotFiller, SessionInv, Steady, Due, ClockFromZero;
    var n := |s.items|;
    var sa, stretch := RunFrom(cfg, s, inputs[..a]), inputs[a..a + n];
    Unmoved(cfg, s, inputs, pid, a);
    SteadyPart(cfg, s, inputs, a, n);
    ClockPart(inputs, a, n);
    SpacedPart(inputs, gap, a, n);
    assert stretch[0] == inputs[a];
    var m := NoPidStarves(cfg, sa, stretch, pid, gap);
    RunOfPart(cfg, s, inputs, a, n, m);
    k := a + m;
  }

  /** No PID waits longer: in a steady stretch of turns at most `gap` milliseconds apart that lasts long enough,
      every scheduled PID is requested, at the latest n gaps after it has become critical (or after the
      stretch began, if that is later) - n PIDs being scheduled. */
  lemma NoPidWaitsLonger(cfg: IceConfig, s: Session, inputs: seq<Input>, pid: byte, gap: int) returns (k: nat)
    requires ValidConfig(cfg) && SessionInv(cfg, s) && Scheduled(s.items, pid) && gap > 0
    requires inputs != [] && ClockFromZero(inputs) && Steady(cfg, s, inputs)
    requires Spaced(inputs, gap)
    requires Ms(inputs[|inputs| - 1].nowAt) >= Latest(cfg, s, inputs, pid, gap)
    ensures k < |inputs| && Due(RunFrom(cfg, s, inputs[..k]), inputs[k]) == Some(pid)
    ensures Ms(inputs[k].nowAt) <= Latest(cfg, s, inputs, pid, gap)
  {
    hide Best, Find, TierOf, RunFrom, GotFiller, SessionInv, Steady, Due, ClockFromZero, Critical, Spaced, NotRequested;
    var n, last := |s.items|, |inputs| - 1;
    var x := Critical(cfg, s.items[Find(s.items, pid)].due, TierOf(pid), n, gap);
    Positive(n, gap);
    LatestIs(cfg, s, inputs, pid, gap);
    var a := FirstAfter(inputs, gap, x, last);
    k := FirstRequest(cfg, s, inputs, pid, a);
    if k < a {
      return;
    }
    EnoughTurns(inputs, gap, x, a, n);
    k := RequestedFrom(cfg, s, inputs, pid, gap, a);
    hide Latest;
    TurnsTake(inputs, gap, a, k);
    AtMost(k - a, n - 1, gap);
    LatestIs(cfg, s, inputs, pid, gap);
  }

  lemma LatestIs(cfg: IceConfig, s: Session, inputs: seq<Input>, pid: byte, gap: int)
    requires Scheduled(s.items, pid) && inputs != []
    ensures var x := Critical(cfg, s.items[Find(s.items, pid)].due, TierOf(pid), |s.items|, gap);
            && Latest(cfg, s, inputs, pid, gap) >= x + |s.items| * gap
            && Latest(cfg, s, inputs, pid, gap) >= Ms(inputs[0].nowAt) + |s.items| * gap
  {
    hide Critical, TierOf, Find;
  }

  lemma Positive(n: nat, gap: int)
    requires gap > 0
    ensures n * gap >= 0 && n * gap == (n - 1) * gap + gap
  {
  }

  lemma AtMost(k: int, n: int, gap: int)
    requires k <= n && gap > 0
    ensures k * gap <= n * gap
  {
    Scale(k, n, gap);
  }

  /** From turn a on the stretch still has n turns. */
  lemma EnoughTurns(inputs: seq<Input>, gap: int, x: int, a: nat, n: nat)
    requires a < |inputs| && gap > 0 && n > 0 && (a > 0 ==> Ms(inputs[a].nowAt) < x + gap)
    requires Spaced(inputs, gap)
    requires Ms(inputs[|inputs| - 1].nowAt) >= x + n * gap
    requires Ms(inputs[|inputs| - 1].nowAt) >= Ms(inputs[0].nowAt) + n * gap
    ensures a + n <= |inputs|
  {
    var last := |inputs| - 1;
    assert n * gap == (n - 2) * gap + 2 * gap;
    TurnsTake(inputs, gap, a, last);
    TurnsTake(inputs, gap, 0, a);
    if last - a <= n - 2 {
      AtMost(last - a, n - 2, gap);
    }
  }

  lemma SpacedPart(inputs: seq<Input>, gap: int, a: nat, n: nat)
    requires Spaced(inputs, gap) && a + n <= |inputs|
    ensures Spaced(inputs[a..a + n], gap)
  {
    var part := inputs[a..a + n];
    forall m | 0 < m < |part|
      ensures 0 <= Ms(part[m].nowAt) - Ms(part[m - 1].nowAt) <= gap
    {
      assert part[m] == inputs[a + m] && part[m - 1] == inputs[a + m - 1];
    }
  }

  lemma ClockPart(inputs: seq<Input>, a: nat, n: nat)
    requires ClockFromZero(inputs) && a + n <= |inputs|
    ensures ClockFromZero(inputs[a..a + n])
  {
  }

  /** On the bus: in a recorded run, a turn's due PID is exactly what it asks for. */
  lemma DueIsAsked(cfg: IceConfig, broadcastId: int, inputs: seq<Input>, log: seq<Traffic>, k: nat)
    requires AllHeard(cfg, broadcastId, inputs, log) && k < |inputs| && SessionRun(cfg, inputs[..k]).discovered
    ensures var due := Due(SessionRun(cfg, inputs[..k]), inputs[k]);
            && log[k].walk.asked == []
            && log[k].poll.asked == if due.None? then [] else [RequestFrame(due.value)]
  {
    hide Due, SessionRun, RequestFrame, Replied, Broadcasts;
    assert Heard(cfg, broadcastId, SessionRun(cfg, inputs[..k]), inputs[k], log[k]);
  }

  lemma {:induction false} RunFromStart(cfg: IceConfig, inputs: seq<Input>)
    ensures RunFrom(cfg, FRESH_SESSION, inputs) == SessionRun(cfg, inputs)
  {
    hide Iterate;
    if inputs != [] {
      var n := |inputs| - 1;
      assert inputs == inputs[..n] + [inputs[n]];
      RunFromStart(cfg, inputs[..n]);
      RunFromOneMore(cfg, FRESH_SESSION, inputs[..n], inputs[n]);
    }
  }

  /** And so no PID is kept off the bus: in any recorded run, over a long enough steady stretch of it, the bus
      is asked for every scheduled PID, by the time stated. */
  lemma EveryPidIsAskedFor(cfg: IceConfig, broadcastId: int, before: seq<Input>, stretch: seq<Input>, log: seq<Traffic>,
                           pid: byte, gap: int) returns (k: nat)
    requires ValidConfig(cfg) && AllHeard(cfg, broadcastId, before + stretch, log) && ClockFromZero(before + stretch)
    requires gap > 0 && stretch != [] && Scheduled(SessionRun(cfg, before).items, pid)
    requires Steady(cfg, SessionRun(cfg, before), stretch)
    requires Spaced(stretch, gap)
    requires Ms(stretch[|stretch| - 1].nowAt) >= Latest(cfg, SessionRun(cfg, before), stretch, pid, gap)
    ensures k < |stretch| && log[|before| + k].poll.asked == [RequestFrame(pid)]
    ensures Ms(stretch[k].nowAt) <= Latest(cfg, SessionRun(cfg, before), stretch, pid, gap)
  {
    hide SessionRun, RunFrom, Due, GotFiller, AllHeard, RequestFrame, SessionInv, Scheduled, Latest;
    var all, s := before + stretch, SessionRun(cfg, before);
    assert all[..|before|] == before && all[|before|..|before| + |stretch|] == stretch;
    ClockPart(all, 0, |before|);
    ClockPart(all, |before|, |stretch|);
    assert all[0..0 + |before|] == before;
    InvAlways(cfg, before);
    k := NoPidWaitsLonger(cfg, s, stretch, pid, gap);
    RunFromStart(cfg, before);
    RunFromParts(cfg, FRESH_SESSION, before, stretch[..k]);
    assert before + stretch[..k] == all[..|before| + k];
    RunFromStart(cfg, all[..|before| + k]);
    DueIsAsked(cfg, broadcastId, all, log, |before| + k);
  }
}
