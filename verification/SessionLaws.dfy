/** Invariants of every obd2-ice run, and the link protocol it follows. */
module SessionLaws {
  import opened BitMasks
  import opened Contract
  import opened J1979
  import opened J1979Client
  import opened Options
  import opened Poller
  import opened Publisher
  import opened Session
  import opened Vehicle

  /** Scheduled PIDs are exactly the wanted ones among the supported, each at its tier's interval, and
      values are held only for scheduled PIDs. */
  ghost predicate SessionInv(cfg: IceConfig, s: Session) {
    && ValidItems(s.items)
    && (forall p: byte :: Scheduled(s.items, p) <==> p in s.supported && Wanted(p))
    && (forall it :: it in s.items ==> it.interval == cfg.fastMs * TierOf(it.pid))
    && (forall p :: p in s.values ==> Scheduled(s.items, p))
  }

  lemma FindAt(items: seq<Item>, i: nat)
    requires i < |items| && ValidItems(items)
    ensures Find(items, items[i].pid) == i
  {
    FindUnique(items, items[i].pid, i);
  }

  lemma ScheduledIn(items: seq<Item>, pid: byte)
    ensures Scheduled(items, pid) <==> exists i :: 0 <= i < |items| && items[i].pid == pid
  {
  }

  lemma AddedLaws(items: seq<Item>, pid: byte, interval: int)
    requires ValidItems(items) && interval > 0
    ensures ValidItems(Added(items, pid, interval))
    ensures forall p: byte :: Scheduled(Added(items, pid, interval), p) <==> p == pid || Scheduled(items, p)
    ensures forall it :: it in Added(items, pid, interval) ==> it in items || it == Item(pid, interval, 0, -1)
  {
    forall p: byte
      ensures Scheduled(Added(items, pid, interval), p) <==> p == pid || Scheduled(items, p)
    {
      AddedAt(items, pid, interval, p);
    }
    hide Find;
  }

  lemma AddedAt(items: seq<Item>, pid: byte, interval: int, p: byte)
    ensures Scheduled(Added(items, pid, interval), p) <==> p == pid || Scheduled(items, p)
  {
    hide Find;
    var r := Added(items, pid, interval);
    if !Scheduled(items, pid) {
      ScheduledIn(items, p);
      ScheduledIn(r, p);
      assert r[|items|].pid == pid;
      if Scheduled(items, p) { assert r[Find(items, p)].pid == p; }
    }
  }

  lemma RemovedLaws(items: seq<Item>, pid: byte)
    requires ValidItems(items)
    ensures ValidItems(Removed(items, pid))
    ensures forall p: byte :: Scheduled(Removed(items, pid), p) <==> p != pid && Scheduled(items, p)
    ensures forall p: byte :: p != pid && Scheduled(items, p) ==>
              && Scheduled(Removed(items, pid), p)
              && Removed(items, pid)[Find(Removed(items, pid), p)] == items[Find(items, p)]
    ensures forall k :: 0 <= k < |Removed(items, pid)| ==> Removed(items, pid)[k] in items
  {
    hide Find;
    RemovedSubset(items, pid);
    var r := Removed(items, pid);
    forall p: byte
      ensures Scheduled(r, p) <==> p != pid && Scheduled(items, p)
      ensures p != pid && Scheduled(items, p) ==> Scheduled(r, p) && r[Find(r, p)] == items[Find(items, p)]
    {
      RemovedAt(items, pid, p);
    }
  }

  /** Where the remaining items were before. */
  lemma RemovedFrom(items: seq<Item>, pid: byte)
    ensures var r, i := Removed(items, pid), Find(items, pid);
            && |r| == (if i < |items| then |items| - 1 else |items|)
            && forall k :: 0 <= k < |r| ==> r[k] == items[if k < i then k else k + 1]
  {
    hide Find;
  }

  lemma RemovedSubset(items: seq<Item>, pid: byte)
    requires ValidItems(items)
    ensures ValidItems(Removed(items, pid))
    ensures forall k :: 0 <= k < |Removed(items, pid)| ==> Removed(items, pid)[k] in items
  {
    RemovedFrom(items, pid);
    hide Find, Removed;
  }

  lemma RemovedAt(items: seq<Item>, pid: byte, p: byte)
    requires ValidItems(items)
    ensures ValidItems(Removed(items, pid))
    ensures var r := Removed(items, pid);
            && (Scheduled(r, p) <==> p != pid && Scheduled(items, p))
            && (p != pid && Scheduled(items, p) ==> r[Find(r, p)] == items[Find(items, p)])
  {
    hide Find, Removed, ValidItems;
    RemovedSubset(items, pid);
    var r := Removed(items, pid);
    if p != pid && Scheduled(items, p) {
      var m := RemainsAt(items, pid, p);
      FindAt(r, m);
    } else if Scheduled(r, p) {
      RemovedIsGone(items, pid, Find(r, p));
    }
  }

  lemma RemainsAt(items: seq<Item>, pid: byte, p: byte) returns (m: nat)
    requires p != pid && Scheduled(items, p)
    ensures m < |Removed(items, pid)| && Removed(items, pid)[m] == items[Find(items, p)]
    ensures Removed(items, pid)[m].pid == p
  {
    RemovedFrom(items, pid);
    hide Find, Removed;
    var i, k := Find(items, pid), Find(items, p);
    m := if k > i then k - 1 else k;
  }

  lemma RemovedIsGone(items: seq<Item>, pid: byte, k: nat)
    requires ValidItems(items) && k < |Removed(items, pid)|
    ensures Removed(items, pid)[k].pid != pid && Scheduled(items, Removed(items, pid)[k].pid)
  {
    RemovedFrom(items, pid);
    hide Find, Removed;
    var i := Find(items, pid);
    var at := if k < i then k else k + 1;
    assert items[at].pid != pid;
    FindAt(items, at);
  }

  lemma TouchedFind(items: seq<Item>, i: nat, it: Item, p: byte)
    requires i < |items| && it.pid == items[i].pid
    ensures Find(items[i := it], p) == Find(items, p)
  {
    FindUnique(items[i := it], p, Find(items, p));
  }

  /** Changing an item's times in place moves no PID. */
  lemma TouchedLaws(items: seq<Item>, i: nat, it: Item)
    requires ValidItems(items) && i < |items|
    requires it.pid == items[i].pid && it.interval == items[i].interval && it.due >= 0
    ensures ValidItems(items[i := it])
    ensures forall p: byte :: Find(items[i := it], p) == Find(items, p)
  {
    forall p: byte
      ensures Find(items[i := it], p) == Find(items, p)
    {
      TouchedFind(items, i, it, p);
    }
    hide Find;
  }

  lemma WantedTiers(n: nat)
    requires n < |WANTED|
    ensures WANTED[n].1 == TierOf(WANTED[n].0) > 0
  {
  }

  /** The PID is one of the first `n` wanted ones. */
  predicate Listed(p: byte, n: nat)
    requires n <= |WANTED|
  {
    n > 0 && (WANTED[n - 1].0 == p || Listed(p, n - 1))
  }

  /** The item has its tier's interval and has not been answered. */
  predicate Unanswered(cfg: IceConfig, it: Item) { it.interval == cfg.fastMs * TierOf(it.pid) && it.lastAnswer == -1 }

  lemma {:induction false} ScheduleLaws(cfg: IceConfig, supported: set<byte>, n: nat)
    requires ValidConfig(cfg) && n <= |WANTED|
    ensures var items := ScheduleUpTo(supported, cfg.fastMs, n);
            && ValidItems(items)
            && (forall p: byte :: Scheduled(items, p) <==> p in supported && Listed(p, n))
            && (forall it :: it in items ==> Unanswered(cfg, it))
  {
    hide TierOf, Find, Added, ValidItems;
    if n > 0 {
      ScheduleLaws(cfg, supported, n - 1);
      var rest, pid := ScheduleUpTo(supported, cfg.fastMs, n - 1), WANTED[n - 1].0;
      var interval := cfg.fastMs * WANTED[n - 1].1;
      WantedTiers(n - 1);
      PositiveInterval(cfg, WANTED[n - 1].1);
      AddedLaws(rest, pid, interval);
      assert Unanswered(cfg, Item(pid, interval, 0, -1));
    } else {
      EmptySchedule();
    }
  }

  lemma PositiveInterval(cfg: IceConfig, tier: int)
    requires ValidConfig(cfg) && tier > 0
    ensures cfg.fastMs * tier > 0
  {
  }

  lemma EmptySchedule()
    ensures ValidItems([])
  {
  }

  lemma WantedListed(p: byte)
    ensures Wanted(p) <==> Listed(p, |WANTED|)
  {
    assert !Listed(p, 0);
    assert Listed(p, 1) <==> p == 0x0D;
    assert Listed(p, 2) <==> p == 0x0C || Listed(p, 1);
    assert Listed(p, 3) <==> p == 0x05 || Listed(p, 2);
    assert Listed(p, 4) <==> p == 0x2F || Listed(p, 3);
    assert Listed(p, 5) <==> p == 0x42 || Listed(p, 4);
    assert Listed(p, 6) <==> p == 0x46 || Listed(p, 5);
    assert Listed(p, 7) <==> p == 0xA6 || Listed(p, 6);
  }

  lemma {:induction false} WatchedKeeps(s: Session, seen: seq<Seen>)
    ensures Watched(s, seen) == s.(lamps := Watched(s, seen).lamps, lampsSeenMs := Watched(s, seen).lampsSeenMs)
  {
    if seen != [] {
      WatchedKeeps(s, seen[..|seen| - 1]);
    }
  }

  // ---------------------------------------------------------------- the invariant over a turn

  lemma AskedKeeps(cfg: IceConfig, s: Session, pid: byte, now: int, n: nat)
    requires ValidConfig(cfg) && SessionInv(cfg, s) && Scheduled(s.items, pid) && now >= 0
    ensures SessionInv(cfg, s.(items := Requested(s.items, pid, now), unanswered := n))
    ensures forall p: byte :: Find(Requested(s.items, pid, now), p) == Find(s.items, p)
    ensures |Requested(s.items, pid, now)| == |s.items|
    ensures forall i :: 0 <= i < |s.items| ==> Requested(s.items, pid, now)[i].lastAnswer == s.items[i].lastAnswer
  {
    hide Find, TierOf;
    var i := Find(s.items, pid);
    TouchedLaws(s.items, i, s.items[i].(due := now + s.items[i].interval));
  }

  lemma AcceptedKeeps(cfg: IceConfig, s: Session, pid: byte, v: real, at: Nanos)
    requires SessionInv(cfg, s) && Scheduled(s.items, pid)
    ensures SessionInv(cfg, Accepted(s, pid, v, at))
    ensures forall p: byte :: Find(Answered(s.items, pid, Ms(at)), p) == Find(s.items, p)
  {
    var i := Find(s.items, pid);
    TouchedLaws(s.items, i, s.items[i].(lastAnswer := Ms(at)));
  }

  lemma DroppedKeeps(cfg: IceConfig, s: Session, pid: byte)
    requires SessionInv(cfg, s)
    ensures SessionInv(cfg, Dropped(s, pid))
    ensures var d := Dropped(s, pid);
            pid !in d.supported && pid !in d.values && !Scheduled(d.items, pid)
  {
    hide Find, Removed;
    RemovedLaws(s.items, pid);
  }

  lemma RediscoveredKeeps(cfg: IceConfig, s: Session, found: set<byte>)
    requires ValidConfig(cfg)
    ensures SessionInv(cfg, Rediscovered(cfg, s, found))
  {
    hide Find, TierOf;
    ScheduleLaws(cfg, found, |WANTED|);
    forall p: byte
      ensures Scheduled(ScheduleUpTo(found, cfg.fastMs, |WANTED|), p) <==> p in found && Wanted(p)
    {
      WantedListed(p);
    }
  }

  lemma WatchedInv(cfg: IceConfig, s: Session, seen: seq<Seen>)
    requires SessionInv(cfg, s)
    ensures SessionInv(cfg, Watched(s, seen))
  {
    WatchedKeeps(s, seen);
  }

  lemma DueIsScheduled(s: Session, in_: Input)
    ensures Due(s, in_).Some? ==> Scheduled(s.items, Due(s, in_).value)
  {
    var b := Best(s.items, Ms(in_.nowAt), |s.items|);
    if b.Some? {
      ScheduledIn(s.items, s.items[b.value].pid);
    }
  }

  /** The state after asking and draining broadcasts, before the answer is looked at. */
  function Asked(s: Session, in_: Input, pid: byte): Session {
    Watched(s.(items := Requested(s.items, pid, Ms(in_.nowAt)), unanswered := s.unanswered + 1), in_.pollSeen)
  }

  lemma AskedInv(cfg: IceConfig, s: Session, in_: Input)
    requires ValidConfig(cfg) && SessionInv(cfg, s) && in_.nowAt >= 0 && Due(s, in_).Some?
    ensures var pid := Due(s, in_).value; SessionInv(cfg, Asked(s, in_, pid)) && Scheduled(Asked(s, in_, pid).items, pid)
  {
    hide Find, Requested, Best, SessionInv, Watched;
    var pid := Due(s, in_).value;
    DueIsScheduled(s, in_);
    AskedKeeps(cfg, s, pid, Ms(in_.nowAt), s.unanswered + 1);
    var q := s.(items := Requested(s.items, pid, Ms(in_.nowAt)), unanswered := s.unanswered + 1);
    WatchedInv(cfg, q, in_.pollSeen);
    WatchedKeeps(q, in_.pollSeen);
  }

  lemma PollKeeps(cfg: IceConfig, s: Session, in_: Input)
    requires ValidConfig(cfg) && SessionInv(cfg, s) && in_.nowAt >= 0
    ensures SessionInv(cfg, Poll(s, in_).0)
  {
    hide Due, Find, Dropped, Accepted, Decode;
    match Due(s, in_)
    case None => WatchedInv(cfg, s, in_.pollSeen);
    case Some(pid) =>
      AskedInv(cfg, s, in_);
      var asked := Asked(s, in_, pid);
      match ReadValue(pid, in_) {
        case Some(v) =>
          AcceptedKeeps(cfg, asked, pid, v, in_.answerAt);
          DroppedKeeps(cfg, asked, pid);
        case None =>
      }
  }

  /** Scheduling, storage and advertisement stay consistent through every turn of the loop. */
  lemma IterateKeeps(cfg: IceConfig, s: Session, in_: Input)
    requires ValidConfig(cfg) && SessionInv(cfg, s) && in_.nowAt >= 0
    ensures SessionInv(cfg, Iterate(cfg, s, in_).0)
  {
    hide Poll, Find, StateOf, Rediscovered;
    if s.discovered {
      PollKeeps(cfg, s, in_);
    } else {
      var w := Watched(s, in_.discoverySeen);
      WatchedInv(cfg, s, in_.discoverySeen);
      if in_.found.Some? {
        RediscoveredKeeps(cfg, w, in_.found.value);
        PollKeeps(cfg, Rediscovered(cfg, w, in_.found.value), in_);
      }
    }
  }

  predicate ClockFromZero(inputs: seq<Input>) {
    forall k :: 0 <= k < |inputs| ==> inputs[k].nowAt >= 0
  }

  lemma {:induction false} InvAlways(cfg: IceConfig, inputs: seq<Input>)
    requires ValidConfig(cfg) && ClockFromZero(inputs)
    ensures SessionInv(cfg, SessionRun(cfg, inputs))
  {
    if inputs != [] {
      InvAlways(cfg, inputs[..|inputs| - 1]);
      IterateKeeps(cfg, SessionRun(cfg, inputs[..|inputs| - 1]), inputs[|inputs| - 1]);
    }
  }

  // ---------------------------------------------------------------- history

  datatype Outcome =
    | Rediscovery
    | NoVehicle
    | Acceptance(pid: byte, payload: seq<byte>, at: Nanos)
    | Filler(pid: byte)
    | NoAnswer(pid: byte)

  /** What the turn's request came to: an answer that decodes and is plausible is accepted; a filler,
      an undecodable answer and silence are not. */
  function PollOutcome(s: Session, in_: Input): seq<Outcome> {
    match Due(s, in_)
    case None => []
    case Some(pid) =>
      var v := ReadValue(pid, in_);
      if v.None? then [NoAnswer(pid)]
      else if Plausible(pid, v.value) then [Acceptance(pid, in_.answer.value.payload, in_.answerAt)]
      else [Filler(pid)]
  }

  function Outcomes(cfg: IceConfig, s: Session, in_: Input): seq<Outcome> {
    if s.discovered then PollOutcome(s, in_)
    else if in_.found.None? then [NoVehicle]
    else [Rediscovery] + PollOutcome(Rediscovered(cfg, Watched(s, in_.discoverySeen), in_.found.value), in_)
  }

  function History(cfg: IceConfig, inputs: seq<Input>): seq<Outcome> {
    if inputs == [] then []
    else
      var early := inputs[..|inputs| - 1];
      History(cfg, early) + Outcomes(cfg, SessionRun(cfg, early), inputs[|inputs| - 1])
  }

  /** The outcome takes back what was accepted for the PID before. */
  predicate Cancels(o: Outcome, pid: byte) { o.Rediscovery? || o.NoVehicle? || o == Filler(pid) }

  /** The last accepted answer of a PID, while it stands: no discovery has been made or has failed since,
      and no filler came for the PID. */
  function Standing(log: seq<Outcome>, pid: byte): (a: Option<Outcome>)
    ensures a.Some? ==> a.value.Acceptance? && a.value.pid == pid
  {
    if log == [] then None
    else
      var last := log[|log| - 1];
      if last.Acceptance? && last.pid == pid then Some(last)
      else if Cancels(last, pid) then None
      else Standing(log[..|log| - 1], pid)
  }

  /** Requests at the end of the history that brought no accepted answer. */
  function Trailing(log: seq<Outcome>): nat {
    if log == [] then 0
    else
      match log[|log| - 1]
      case Rediscovery => 0
      case Acceptance(_, _, _) => 0
      case NoVehicle => Trailing(log[..|log| - 1])
      case Filler(_) => 1 + Trailing(log[..|log| - 1])
      case NoAnswer(_) => 1 + Trailing(log[..|log| - 1])
  }

  /** A value is stored for the PID exactly when an answer to it stands, and it is the decoded payload of that
      answer, with its time. */
  ghost predicate Holds(values: map<byte, real>, items: seq<Item>, log: seq<Outcome>, p: byte) {
    var a := Standing(log, p);
    && (p in values <==> a.Some?)
    && (p in values ==>
          && Scheduled(items, p) && Decode(p, a.value.payload) == Some(values[p])
          && items[Find(items, p)].lastAnswer == Ms(a.value.at))
  }

  /** The session's bookkeeping agrees with the history: the streak counts the trailing requests, and the
      values stored are those of the standing answers. */
  ghost predicate Tracks(s: Session, log: seq<Outcome>) {
    s.unanswered == Trailing(log) && forall p: byte :: Holds(s.values, s.items, log, p)
  }

  lemma StandingMore(log: seq<Outcome>, o: Outcome, p: byte)
    ensures Standing(log + [o], p) ==
            if o.Acceptance? && o.pid == p then Some(o) else if Cancels(o, p) then None else Standing(log, p)
  {
    assert (log + [o])[..|log|] == log;
  }

  lemma OneMore(log: seq<Outcome>, o: Outcome)
    ensures Trailing(log + [o]) == if o.Filler? || o.NoAnswer? then 1 + Trailing(log)
                                   else if o.NoVehicle? then Trailing(log) else 0
    ensures forall p: byte :: Standing(log + [o], p) ==
              if o.Acceptance? && o.pid == p then Some(o) else if Cancels(o, p) then None else Standing(log, p)
  {
    hide Standing;
    assert (log + [o])[..|log|] == log;
    forall p: byte
      ensures Standing(log + [o], p) ==
              if o.Acceptance? && o.pid == p then Some(o) else if Cancels(o, p) then None else Standing(log, p)
    {
      StandingMore(log, o, p);
    }
  }

  lemma WatchedTracks(s: Session, seen: seq<Seen>, log: seq<Outcome>)
    requires Tracks(s, log)
    ensures Tracks(Watched(s, seen), log)
  {
    hide Holds, Watched;
    WatchedKeeps(s, seen);
  }

  lemma HoldsMoved(values: map<byte, real>, items: seq<Item>, items': seq<Item>, log: seq<Outcome>, log': seq<Outcome>,
                   p: byte)
    requires Holds(values, items, log, p) && Standing(log', p) == Standing(log, p)
    requires |items'| == |items| && Find(items', p) == Find(items, p)
    requires Scheduled(items, p) ==> items'[Find(items, p)].lastAnswer == items[Find(items, p)].lastAnswer
    ensures Holds(values, items', log', p)
  {
    hide Decode, Standing, Find;
  }

  lemma AskedHolds(s: Session, pid: byte, now: int, log: seq<Outcome>, p: byte)
    requires Scheduled(s.items, pid) && Holds(s.values, s.items, log, p)
    ensures Holds(s.values, Requested(s.items, pid, now), log + [NoAnswer(pid)], p)
  {
    hide Holds, Standing, Find;
    var i := Find(s.items, pid);
    TouchedFind(s.items, i, s.items[i].(due := now + s.items[i].interval), p);
    StandingMore(log, NoAnswer(pid), p);
    HoldsMoved(s.values, s.items, Requested(s.items, pid, now), log, log + [NoAnswer(pid)], p);
  }

  lemma AskedTracks(cfg: IceConfig, s: Session, in_: Input, log: seq<Outcome>)
    requires ValidConfig(cfg) && SessionInv(cfg, s) && in_.nowAt >= 0 && Due(s, in_).Some? && Tracks(s, log)
    ensures var pid := Due(s, in_).value; Tracks(Asked(s, in_, pid), log + [NoAnswer(pid)])
  {
    hide Best, Requested, Holds, Trailing, SessionInv, Watched, Find;
    var pid := Due(s, in_).value;
    DueIsScheduled(s, in_);
    forall p: byte
      ensures Holds(s.values, Requested(s.items, pid, Ms(in_.nowAt)), log + [NoAnswer(pid)], p)
    {
      AskedHolds(s, pid, Ms(in_.nowAt), log, p);
    }
    OneMore(log, NoAnswer(pid));
    var q := s.(items := Requested(s.items, pid, Ms(in_.nowAt)), unanswered := s.unanswered + 1);
    WatchedTracks(q, in_.pollSeen, log + [NoAnswer(pid)]);
  }

  lemma AcceptedHolds(s: Session, pid: byte, payload: seq<byte>, v: real, at: Nanos, log: seq<Outcome>, p: byte)
    requires Scheduled(s.items, pid) && Decode(pid, payload) == Some(v)
    requires Holds(s.values, s.items, log + [NoAnswer(pid)], p)
    ensures Holds(s.values[pid := v], Answered(s.items, pid, Ms(at)), log + [Acceptance(pid, payload, at)], p)
  {
    hide Decode, Find, Standing;
    var i, items := Find(s.items, pid), Answered(s.items, pid, Ms(at));
    StandingMore(log, NoAnswer(pid), p);
    StandingMore(log, Acceptance(pid, payload, at), p);
    TouchedFind(s.items, i, s.items[i].(lastAnswer := Ms(at)), p);
    if p != pid {
      HoldsMoved(s.values, s.items, items, log + [NoAnswer(pid)], log + [Acceptance(pid, payload, at)], p);
    }
  }

  lemma AcceptedTracks(cfg: IceConfig, s: Session, pid: byte, payload: seq<byte>, v: real, at: Nanos, log: seq<Outcome>)
    requires SessionInv(cfg, s) && Scheduled(s.items, pid) && Decode(pid, payload) == Some(v)
    requires Tracks(s, log + [NoAnswer(pid)])
    ensures Tracks(Accepted(s, pid, v, at), log + [Acceptance(pid, payload, at)])
  {
    hide Decode, Find, Trailing, Answered, SessionInv, Holds;
    OneMore(log, Acceptance(pid, payload, at));
    var a, log' := Accepted(s, pid, v, at), log + [Acceptance(pid, payload, at)];
    forall p: byte
      ensures Holds(a.values, a.items, log', p)
    {
      AcceptedHolds(s, pid, payload, v, at, log, p);
    }
  }

  lemma DroppedHolds(s: Session, pid: byte, log: seq<Outcome>, p: byte)
    requires ValidItems(s.items) && Holds(s.values, s.items, log + [NoAnswer(pid)], p)
    ensures Holds(s.values - {pid}, Removed(s.items, pid), log + [Filler(pid)], p)
  {
    hide Find, Removed, Decode, Standing, ValidItems;
    StandingMore(log, NoAnswer(pid), p);
    StandingMore(log, Filler(pid), p);
    RemovedAt(s.items, pid, p);
  }

  lemma DroppedTracks(cfg: IceConfig, s: Session, pid: byte, log: seq<Outcome>)
    requires SessionInv(cfg, s) && Tracks(s, log + [NoAnswer(pid)])
    ensures Tracks(Dropped(s, pid), log + [Filler(pid)])
  {
    hide Find, Removed, Trailing, Holds, ValidItems;
    OneMore(log, NoAnswer(pid));
    OneMore(log, Filler(pid));
    var d, log' := Dropped(s, pid), log + [Filler(pid)];
    forall p: byte
      ensures Holds(d.values, d.items, log', p)
    {
      DroppedHolds(s, pid, log, p);
    }
  }

  lemma PollTracks(cfg: IceConfig, s: Session, in_: Input, log: seq<Outcome>)
    requires ValidConfig(cfg) && SessionInv(cfg, s) && in_.nowAt >= 0 && Tracks(s, log)
    ensures Tracks(Poll(s, in_).0, log + PollOutcome(s, in_))
  {
    hide Due, Find, Dropped, Accepted, Decode, Tracks;
    match Due(s, in_)
    case None =>
      WatchedTracks(s, in_.pollSeen, log);
      assert log + [] == log;
    case Some(pid) =>
      AskedInv(cfg, s, in_);
      AskedTracks(cfg, s, in_, log);
      var asked := Asked(s, in_, pid);
      match ReadValue(pid, in_) {
        case Some(v) =>
          if Plausible(pid, v) {
            AcceptedTracks(cfg, asked, pid, in_.answer.value.payload, v, in_.answerAt, log);
          } else {
            DroppedTracks(cfg, asked, pid, log);
          }
        case None =>
          TracksIgnores(asked, log + [NoAnswer(pid)], false, asked.nextPublish);
      }
  }

  lemma TracksIgnores(s: Session, log: seq<Outcome>, d: bool, next: int)
    requires Tracks(s, log)
    ensures Tracks(s.(discovered := d, nextPublish := next), log)
  {
  }

  lemma BlindTracks(s: Session, log: seq<Outcome>)
    requires Tracks(s, log)
    ensures Tracks(s.(values := map[]), log + [NoVehicle])
  {
    OneMore(log, NoVehicle);
  }

  lemma FoundTracks(cfg: IceConfig, s: Session, found: set<byte>, log: seq<Outcome>)
    ensures Tracks(Rediscovered(cfg, s, found), log + [Rediscovery])
  {
    hide ScheduleUpTo;
    OneMore(log, Rediscovery);
  }

  lemma IterateTracks(cfg: IceConfig, s: Session, in_: Input, log: seq<Outcome>)
    requires ValidConfig(cfg) && SessionInv(cfg, s) && in_.nowAt >= 0 && Tracks(s, log)
    ensures Tracks(Iterate(cfg, s, in_).0, log + Outcomes(cfg, s, in_))
  {
    hide PollTurn, PollOutcome, Tracks, SessionInv, Watched, StateOf, Rediscovered;
    if s.discovered {
      PollTurnTracks(cfg, s, in_, log);
    } else {
      var w := Watched(s, in_.discoverySeen);
      WatchedTracks(s, in_.discoverySeen, log);
      if in_.found.None? {
        BlindTracks(w, log);
      } else {
        RediscoveredKeeps(cfg, w, in_.found.value);
        FoundTracks(cfg, w, in_.found.value, log);
        var s' := Rediscovered(cfg, w, in_.found.value);
        PollTurnTracks(cfg, s', in_, log + [Rediscovery]);
        assert log + ([Rediscovery] + PollOutcome(s', in_)) == (log + [Rediscovery]) + PollOutcome(s', in_);
      }
    }
  }

  lemma PollTurnTracks(cfg: IceConfig, s: Session, in_: Input, log: seq<Outcome>)
    requires ValidConfig(cfg) && SessionInv(cfg, s) && in_.nowAt >= 0 && Tracks(s, log)
    ensures Tracks(PollTurn(cfg, s, in_).0, log + PollOutcome(s, in_))
  {
    hide Poll, StateOf, Tracks, PollOutcome;
    PollTracks(cfg, s, in_, log);
    var p := Poll(s, in_).0;
    TracksIgnores(p, log + PollOutcome(s, in_), p.discovered, Ms(in_.rearmAt) + 50);
  }

  lemma {:induction false} TracksAlways(cfg: IceConfig, inputs: seq<Input>)
    requires ValidConfig(cfg) && ClockFromZero(inputs)
    ensures Tracks(SessionRun(cfg, inputs), History(cfg, inputs))
  {
    hide Iterate, Outcomes;
    if inputs != [] {
      var early := inputs[..|inputs| - 1];
      TracksAlways(cfg, early);
      InvAlways(cfg, early);
      IterateTracks(cfg, SessionRun(cfg, early), inputs[|inputs| - 1], History(cfg, early));
    }
  }

  // ---------------------------------------------------------------- what is published

  /** The PID behind a polled signal. */
  function PidOf(sig: Signal): Option<byte> {
    match sig
    case 0 => Some(PID_SPEED)
    case 1 => Some(PID_RPM)
    case 12 => Some(PID_ODOMETER)
    case 13 => Some(PID_AMBIENT_TEMP)
    case 15 => Some(PID_COOLANT_TEMP)
    case 16 => Some(PID_FUEL_LEVEL)
    case 17 => Some(PID_MODULE_VOLTAGE)
    case 3 => Some(PID_RPM)
    case _ => None
  }

  lemma {:induction false} CapableBits(supported: set<byte>, n: nat, sig: Signal)
    requires n <= |REPORTED|
    ensures Set(CapableUpTo(supported, n), sig) <==>
            exists k :: 0 <= k < n && REPORTED[k].1 == sig && REPORTED[k].0 in supported
  {
    if n == 0 {
      ZeroHasNoBits(sig);
    } else {
      CapableBits(supported, n - 1, sig);
      SetWith(CapableUpTo(supported, n - 1), REPORTED[n - 1].1, sig);
    }
  }

  lemma {:induction false} ValidBits(s: Session, now: int, n: nat, sig: Signal)
    requires n <= |REPORTED|
    ensures Set(ValidUpTo(s, now, n), sig) <==>
            exists k :: 0 <= k < n && REPORTED[k].1 == sig && Current(s, REPORTED[k].0, now)
  {
    hide Current;
    if n == 0 {
      ZeroHasNoBits(sig);
    } else {
      ValidBits(s, now, n - 1, sig);
      SetWith(ValidUpTo(s, now, n - 1), REPORTED[n - 1].1, sig);
    }
  }

  lemma ReportedFor(sig: Signal, pid: byte)
    ensures (exists k :: 0 <= k < |REPORTED| && REPORTED[k].1 == sig && REPORTED[k].0 == pid)
            <==> sig != SIG_POWER_STATE && PidOf(sig) == Some(pid)
  {
    if sig == 0 { assert REPORTED[0].1 == sig; }
    else if sig == 1 { assert REPORTED[1].1 == sig; }
    else if sig == 15 { assert REPORTED[2].1 == sig; }
    else if sig == 16 { assert REPORTED[3].1 == sig; }
    else if sig == 17 { assert REPORTED[4].1 == sig; }
    else if sig == 13 { assert REPORTED[5].1 == sig; }
    else if sig == 12 { assert REPORTED[6].1 == sig; }
  }

  lemma CurrentIsSupported(s: Session, now: int)
    ensures forall pid: byte :: Current(s, pid, now) ==> pid in s.supported
  {
  }

  /** A signal is announced exactly when its PID is advertised, and marked valid exactly when, on top
      of that, a value is stored and still fresh; nothing else is ever announced or valid. */
  lemma PublishedBits(cfg: IceConfig, s: Session, now: int, sig: Signal)
    ensures Set(StateOf(cfg, s, now).capable, sig) <==> PidOf(sig).Some? && PidOf(sig).value in s.supported
    ensures Set(StateOf(cfg, s, now).valid, sig) <==> PidOf(sig).Some? && Current(s, PidOf(sig).value, now)
    ensures Set(StateOf(cfg, s, now).valid, sig) ==> Set(StateOf(cfg, s, now).capable, sig)
  {
    hide Current, Value, Set, CapableMask, ValidMask;
    CapableExactly(s.supported, sig);
    ValidExactly(s, now, sig);
    CurrentIsSupported(s, now);
  }

  lemma CapableExactly(supported: set<byte>, sig: Signal)
    ensures Set(CapableMask(supported), sig) <==> PidOf(sig).Some? && PidOf(sig).value in supported
  {
    hide Set, With, CapableUpTo, PidOf;
    CapableBits(supported, |REPORTED|, sig);
    SetWith(CapableUpTo(supported, |REPORTED|), SIG_POWER_STATE, sig);
    PidsOf(sig);
    forall k | 0 <= k < |REPORTED|
      ensures REPORTED[k].1 == sig <==> sig != SIG_POWER_STATE && PidOf(sig) == Some(REPORTED[k].0)
    {
      ReportedAs(sig, k);
    }
  }

  lemma ValidExactly(s: Session, now: int, sig: Signal)
    ensures Set(ValidMask(s, now), sig) <==> PidOf(sig).Some? && Current(s, PidOf(sig).value, now)
  {
    hide Set, With, ValidUpTo, PidOf, Current;
    ValidBits(s, now, |REPORTED|, sig);
    SetWith(ValidUpTo(s, now, |REPORTED|), SIG_POWER_STATE, sig);
    PidsOf(sig);
    forall k | 0 <= k < |REPORTED|
      ensures REPORTED[k].1 == sig <==> sig != SIG_POWER_STATE && PidOf(sig) == Some(REPORTED[k].0)
    {
      ReportedAs(sig, k);
    }
  }

  /** Every polled signal but the power state, which rides on rpm, is listed with its PID. */
  lemma PidsOf(sig: Signal)
    ensures PidOf(SIG_POWER_STATE) == Some(PID_RPM)
    ensures sig != SIG_POWER_STATE && PidOf(sig).Some? ==> exists k :: 0 <= k < |REPORTED| && REPORTED[k].1 == sig
  {
    if sig != SIG_POWER_STATE && PidOf(sig).Some? {
      ReportedFor(sig, PidOf(sig).value);
    }
  }

  lemma ReportedAs(sig: Signal, k: nat)
    requires k < |REPORTED|
    ensures REPORTED[k].1 == sig <==> sig != SIG_POWER_STATE && PidOf(sig) == Some(REPORTED[k].0)
  {
  }


  // ---------------------------------------------------------------- link protocol

  /** Follows the set_link calls from the given link state; None once two set_link(1) come without
      a set_link(0) between them. */
  function LinkAfter(up: bool, calls: seq<HostCall>): Option<bool> {
    if calls == [] then Some(up)
    else
      match LinkAfter(up, calls[..|calls| - 1])
      case None => None
      case Some(u) =>
        match calls[|calls| - 1]
        case SetLink(present, _) => if present && u then None else Some(present)
        case Publish(_, _, _) => Some(u)
  }

  lemma {:induction false} LinkConcat(up: bool, a: seq<HostCall>, b: seq<HostCall>)
    ensures LinkAfter(up, a + b) == match LinkAfter(up, a) case None => None case Some(u) => LinkAfter(u, b)
  {
    if b == [] {
      assert a + b == a;
    } else {
      assert (a + b)[..|a + b| - 1] == a + b[..|b| - 1];
      LinkConcat(up, a, b[..|b| - 1]);
    }
  }

  lemma LinkOne(up: bool, c: HostCall)
    ensures LinkAfter(up, [c]) ==
            match c case SetLink(present, _) => if present && up then None else Some(present)
                    case Publish(_, _, _) => Some(up)
  {
    assert [c][..0] == [];
  }

  lemma PollTurnLink(cfg: IceConfig, s: Session, in_: Input)
    requires s.discovered
    ensures var (s', calls) := PollTurn(cfg, s, in_); LinkAfter(true, calls) == Some(s'.discovered)
    ensures PollTurn(cfg, s, in_).0.discovered <==> !Poll(s, in_).1
  {
    hide StateOf, Due, ReadValue;
    var (polled, lost) := Poll(s, in_);
    PollDiscovered(s, in_);
    var calls := PollTurn(cfg, s, in_).1;
    if calls != [] {
      LinkOne(true, calls[0]);
      assert calls == [calls[0]];
    }
  }

  lemma PollDiscovered(s: Session, in_: Input)
    requires s.discovered
    ensures Poll(s, in_).0.discovered <==> !Poll(s, in_).1
  {
    WatchedKeeps(s, in_.pollSeen);
    if Due(s, in_).Some? {
      var q := s.(items := Requested(s.items, Due(s, in_).value, Ms(in_.nowAt)), unanswered := s.unanswered + 1);
      WatchedKeeps(q, in_.pollSeen);
    }
  }

  /** Over every run, two set_link(1) are separated by a set_link(0), and the link the host last heard
      of is up exactly when the session believes in a vehicle. */
  lemma {:induction false} LinkProtocol(cfg: IceConfig, inputs: seq<Input>)
    ensures LinkAfter(false, Calls(cfg, inputs)) == Some(SessionRun(cfg, inputs).discovered)
  {
    hide PollTurn, StateOf;
    if inputs != [] {
      var early, last := inputs[..|inputs| - 1], inputs[|inputs| - 1];
      LinkProtocol(cfg, early);
      var s := SessionRun(cfg, early);
      var calls := Iterate(cfg, s, last).1;
      LinkConcat(false, Calls(cfg, early), calls);
      if s.discovered {
        PollTurnLink(cfg, s, last);
      } else {
        WatchedKeeps(s, last.discoverySeen);
        LinkConcat(false, calls[..1], calls[1..]);
        assert calls == calls[..1] + calls[1..];
        LinkOne(false, calls[0]);
        if last.found.None? {
          LinkOne(false, calls[1]);
          assert calls[1..] == [calls[1]];
        } else {
          var s' := Rediscovered(cfg, Watched(s, last.discoverySeen), last.found.value);
          PollTurnLink(cfg, s', last);
          assert calls[1..] == PollTurn(cfg, s', last).1;
        }
      }
    }
  }

  /** The poll path gives the vehicle up exactly on a request that brings no decodable answer and is at
      least the fifth in a row without an accepted one, since rediscovery. */
  lemma {:induction false} DropsExactlyWhen(cfg: IceConfig, inputs: seq<Input>, in_: Input)
    requires ValidConfig(cfg) && ClockFromZero(inputs) && in_.nowAt >= 0
    ensures var s := SessionRun(cfg, inputs);
            s.discovered ==>
              (SetLink(false, in_.lostAt) in Iterate(cfg, s, in_).1 <==>
                 Due(s, in_).Some? && ReadValue(Due(s, in_).value, in_).None? && Trailing(History(cfg, inputs)) >= 4)
  {
    hide Due, ReadValue, Poll, SessionRun, History, Trailing, StateOf;
    TracksAlways(cfg, inputs);
    LostWhen(SessionRun(cfg, inputs), in_);
  }

  lemma LostWhen(s: Session, in_: Input)
    ensures Poll(s, in_).1 <==> Due(s, in_).Some? && ReadValue(Due(s, in_).value, in_).None? && s.unanswered >= 4
  {
    hide Due, ReadValue, Watched, Requested, Accepted, Dropped, Plausible;
    if Due(s, in_).Some? {
      var q := s.(items := Requested(s.items, Due(s, in_).value, Ms(in_.nowAt)), unanswered := s.unanswered + 1);
      WatchedKeeps(q, in_.pollSeen);
    }
  }

  /** A turn that requests and gets no decodable answer. */
  predicate Fails(s: Session, in_: Input) {
    Due(s, in_).Some? && ReadValue(Due(s, in_).value, in_).None?
  }

  function FailCount(cfg: IceConfig, s: Session, inputs: seq<Input>): nat
    decreases |inputs|
  {
    if inputs == [] then 0
    else (if Fails(s, inputs[0]) then 1 else 0) + FailCount(cfg, Iterate(cfg, s, inputs[0]).0, inputs[1..])
  }

  /** Every turn requests in vain or only waits, and the vehicle is believed present throughout. */
  predicate StaysUp(cfg: IceConfig, s: Session, inputs: seq<Input>)
    decreases |inputs|
  {
    && s.discovered
    && (inputs == [] ||
        ((Fails(s, inputs[0]) || Due(s, inputs[0]).None?)
         && StaysUp(cfg, Iterate(cfg, s, inputs[0]).0, inputs[1..])))
  }

  lemma FailingTurn(cfg: IceConfig, s: Session, in_: Input)
    requires s.discovered && (Fails(s, in_) || Due(s, in_).None?)
    ensures var s' := Iterate(cfg, s, in_).0;
            if Fails(s, in_) then s'.unanswered == s.unanswered + 1 && (s'.discovered <==> s'.unanswered < 5)
            else s'.unanswered == s.unanswered
  {
    hide Due, ReadValue, Requested, StateOf, Accepted, Dropped;
    WatchedKeeps(s, in_.pollSeen);
    if Due(s, in_).Some? {
      var q := s.(items := Requested(s.items, Due(s, in_).value, Ms(in_.nowAt)), unanswered := s.unanswered + 1);
      WatchedKeeps(q, in_.pollSeen);
    }
  }

  /** Five failed requests in a row always give the vehicle up: the link never survives a fifth. */
  lemma {:induction false} FiveFailuresDrop(cfg: IceConfig, s: Session, inputs: seq<Input>)
    requires StaysUp(cfg, s, inputs)
    ensures FailCount(cfg, s, inputs) == 0 || s.unanswered + FailCount(cfg, s, inputs) < 5
    decreases |inputs|
  {
    hide Due, Iterate;
    if inputs != [] {
      FailingTurn(cfg, s, inputs[0]);
      FiveFailuresDrop(cfg, Iterate(cfg, s, inputs[0]).0, inputs[1..]);
    }
  }

  // ---------------------------------------------------------------- what outlives the link

  /** A run from a given state without a successful discovery. */
  predicate NeverRediscovers(cfg: IceConfig, s: Session, inputs: seq<Input>)
    decreases |inputs|
  {
    inputs == [] ||
    ((s.discovered || inputs[0].found.None?)
     && NeverRediscovers(cfg, Iterate(cfg, s, inputs[0]).0, inputs[1..]))
  }

  function RunFrom(cfg: IceConfig, s: Session, inputs: seq<Input>): Session
    decreases |inputs|
  {
    if inputs == [] then s else RunFrom(cfg, Iterate(cfg, s, inputs[0]).0, inputs[1..])
  }

  lemma SupportShrinks(cfg: IceConfig, s: Session, in_: Input)
    requires s.discovered || in_.found.None?
    ensures var s' := Iterate(cfg, s, in_).0;
            s'.supported <= s.supported && (!s.discovered ==> !s'.discovered && s'.supported == s.supported)
  {
    hide Due, ReadValue, Requested, StateOf, Removed, Answered;
    WatchedKeeps(s, in_.discoverySeen);
    WatchedKeeps(s, in_.pollSeen);
    if Due(s, in_).Some? {
      var q := s.(items := Requested(s.items, Due(s, in_).value, Ms(in_.nowAt)), unanswered := s.unanswered + 1);
      WatchedKeeps(q, in_.pollSeen);
    }
  }

  function CallsFrom(cfg: IceConfig, s: Session, inputs: seq<Input>): seq<HostCall>
    decreases |inputs|
  {
    if inputs == [] then []
    else
      var (s', calls) := Iterate(cfg, s, inputs[0]);
      calls + CallsFrom(cfg, s', inputs[1..])
  }

  lemma BlindTurn(cfg: IceConfig, s: Session, in_: Input, c: HostCall)
    requires !s.discovered && in_.found.None? && c in Iterate(cfg, s, in_).1
    ensures c == SetLink(false, in_.linkAt)
            || (c.Publish? && c.state.capable == CapableMask(s.supported)
                && forall sig: Signal :: !Set(c.state.valid, sig))
  {
    hide CapableMask, ValidMask, Value, Current, Set;
    WatchedKeeps(s, in_.discoverySeen);
    if c.Publish? {
      var blind := Watched(s, in_.discoverySeen).(values := map[]);
      forall sig: Signal
        ensures !Set(c.state.valid, sig)
      {
        PublishedBits(cfg, blind, Ms(in_.nowAt), sig);
        NothingCurrent(blind, Ms(in_.nowAt));
      }
    }
  }

  lemma NothingCurrent(s: Session, now: int)
    requires s.values == map[]
    ensures forall pid: byte :: !Current(s, pid, now)
  {
  }

  /** From the loss of the vehicle to the next successful discovery, whatever is published announces exactly
      the capabilities known at the loss, marks no signal valid, and the link is only ever reported down. */
  lemma {:induction false} CapabilitiesHeldWhileLost(cfg: IceConfig, s: Session, inputs: seq<Input>, c: HostCall)
    requires !s.discovered && NeverRediscovers(cfg, s, inputs) && c in CallsFrom(cfg, s, inputs)
    ensures c.SetLink? ==> !c.present
    ensures c.Publish? ==> c.state.capable == CapableMask(s.supported) && forall sig: Signal :: !Set(c.state.valid, sig)
    decreases |inputs|
  {
    hide Iterate, CapableMask;
    if c in Iterate(cfg, s, inputs[0]).1 {
      BlindTurn(cfg, s, inputs[0], c);
    } else {
      SupportShrinks(cfg, s, inputs[0]);
      CapabilitiesHeldWhileLost(cfg, Iterate(cfg, s, inputs[0]).0, inputs[1..], c);
    }
  }

  /** An answer recognised as a filler takes its PID out of the advertised set, the schedule and the
      stored values, and it stays out of all three until a later discovery succeeds. */
  lemma {:induction false} DroppedStaysOut(cfg: IceConfig, s: Session, inputs: seq<Input>, pid: byte)
    requires ValidConfig(cfg) && ClockFromZero(inputs) && SessionInv(cfg, s)
    requires pid !in s.supported && NeverRediscovers(cfg, s, inputs)
    ensures var r := RunFrom(cfg, s, inputs);
            pid !in r.supported && pid !in r.values && !Scheduled(r.items, pid)
    decreases |inputs|
  {
    hide Iterate, Find;
    if inputs != [] {
      SupportShrinks(cfg, s, inputs[0]);
      IterateKeeps(cfg, s, inputs[0]);
      DroppedStaysOut(cfg, Iterate(cfg, s, inputs[0]).0, inputs[1..], pid);
    }
  }

  lemma FillerIsDropped(cfg: IceConfig, s: Session, in_: Input)
    requires ValidConfig(cfg) && SessionInv(cfg, s) && s.discovered && in_.nowAt >= 0 && Due(s, in_).Some?
    ensures var pid := Due(s, in_).value;
            var v := ReadValue(pid, in_);
            v.Some? && !Plausible(pid, v.value) ==>
              var s' := Iterate(cfg, s, in_).0;
              pid !in s'.supported && pid !in s'.values && !Scheduled(s'.items, pid) && s'.discovered
  {
    hide Due, ReadValue, Find, StateOf, Accepted, Removed;
    var pid := Due(s, in_).value;
    AskedInv(cfg, s, in_);
    DroppedKeeps(cfg, Asked(s, in_, pid), pid);
    var q := s.(items := Requested(s.items, pid, Ms(in_.nowAt)), unanswered := s.unanswered + 1);
    WatchedKeeps(q, in_.pollSeen);
  }

  // ---------------------------------------------------------------- what an answer does

  /** The two fillers as the ECU sends them: a module voltage below 6000 mV, a zero byte of ambient temperature. */
  predicate FillerBytes(pid: byte, p: seq<byte>) {
    || (pid == 0x42 && |p| >= 2 && 0x100 * p[0] as int + p[1] as int < 6000)
    || (pid == 0x46 && |p| >= 1 && p[0] == 0)
  }

  lemma PlausibleBytes(pid: byte, p: seq<byte>)
    requires Decode(pid, p).Some?
    ensures Plausible(pid, Decode(pid, p).value) <==> !FillerBytes(pid, p)
  {
    if pid == 0x42 {
      var w := 0x100 * p[0] as int + p[1] as int;
      assert Decode(pid, p) == Some(w as real / 1000.0);
      assert w as real / 1000.0 < 6.0 <==> w < 6000;
    }
  }

  /** What a turn leaves of the advertised set, the stored values and the streak, whatever state it began in.
      A discovery replaces set and values; a failed one keeps the set and clears the values. Then, if a PID is
      due and gets a decodable answer: a filler, and nothing else, takes the PID out of the set, the schedule
      and the values; any other answer is stored with its time and ends the streak. Nothing else changes set
      or values - not even the loss of the vehicle. */
  lemma TurnLearns(cfg: IceConfig, s: Session, in_: Input)
    requires ValidConfig(cfg) && SessionInv(cfg, s) && in_.nowAt >= 0
    ensures var s' := Iterate(cfg, s, in_).0;
            var found := !s.discovered && in_.found.Some?;
            var set0 := if found then in_.found.value else s.supported;
            var values0 := if s.discovered then s.values else map[];
            var asked := if Ready(cfg, s, in_).None? then None else Due(Ready(cfg, s, in_).value, in_);
            if asked.Some? && in_.answer.Some? && Decode(asked.value, in_.answer.value.payload).Some? then
              Learnt(s', set0, values0, asked.value, in_.answer.value.payload, in_.answerAt)
            else s'.supported == set0 && s'.values == values0
  {
    hide Due, Decode, Learnt, StateOf, Watched, ScheduleUpTo, PollTurn;
    WatchedKeeps(s, in_.discoverySeen);
    if Ready(cfg, s, in_).Some? {
      var ready := Ready(cfg, s, in_).value;
      if !s.discovered {
        WatchedInv(cfg, s, in_.discoverySeen);
        RediscoveredKeeps(cfg, Watched(s, in_.discoverySeen), in_.found.value);
      }
      PollLearns(cfg, ready, in_);
    }
  }

  /** The effect of a decodable answer on set, schedule, values and streak. */
  ghost predicate Learnt(s: Session, set0: set<byte>, values0: map<byte, real>, pid: byte, p: seq<byte>, at: Nanos)
    requires Decode(pid, p).Some?
  {
    && s.discovered
    && (FillerBytes(pid, p) <==> pid !in s.supported)
    && (FillerBytes(pid, p) <==> !Scheduled(s.items, pid))
    && (FillerBytes(pid, p) <==> pid !in s.values)
    && if FillerBytes(pid, p) then s.supported == set0 - {pid} && s.values == values0 - {pid} && s.unanswered > 0
       else
         && s.supported == set0 && s.values == values0[pid := Decode(pid, p).value]
         && s.items[Find(s.items, pid)].lastAnswer == Ms(at) && s.unanswered == 0
  }

  lemma PollLearns(cfg: IceConfig, s: Session, in_: Input)
    requires ValidConfig(cfg) && SessionInv(cfg, s) && s.discovered && in_.nowAt >= 0
    ensures var s', asked := PollTurn(cfg, s, in_).0, Due(s, in_);
            if asked.Some? && in_.answer.Some? && Decode(asked.value, in_.answer.value.payload).Some? then
              Learnt(s', s.supported, s.values, asked.value, in_.answer.value.payload, in_.answerAt)
            else s'.supported == s.supported && s'.values == s.values
  {
    hide Due, Decode, Find, StateOf, Removed, Requested, Answered, FillerBytes, Plausible, SessionInv;
    WatchedKeeps(s, in_.pollSeen);
    if Due(s, in_).Some? {
      var pid := Due(s, in_).value;
      var asked := Asked(s, in_, pid);
      AskedInv(cfg, s, in_);
      WatchedKeeps(s.(items := Requested(s.items, pid, Ms(in_.nowAt)), unanswered := s.unanswered + 1), in_.pollSeen);
      if ReadValue(pid, in_).Some? {
        PlausibleBytes(pid, in_.answer.value.payload);
        DroppedKeeps(cfg, asked, pid);
        AcceptedStays(cfg, asked, pid, ReadValue(pid, in_).value, in_.answerAt);
      }
    }
  }

  lemma AcceptedStays(cfg: IceConfig, s: Session, pid: byte, v: real, at: Nanos)
    requires SessionInv(cfg, s) && Scheduled(s.items, pid)
    ensures var a := Accepted(s, pid, v, at);
            && pid in a.supported && Scheduled(a.items, pid) && a.items[Find(a.items, pid)].lastAnswer == Ms(at)
  {
    hide Find, Wanted;
    AcceptedKeeps(cfg, s, pid, v, at);
  }
}
