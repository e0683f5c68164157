/** When the vehicle is asked: never twice for a PID within its interval, and first, when it has just been found,
    for the first PID of the poll list that it has. */
module RequestTimes {
  import opened Contract
  import opened J1979
  import opened J1979Client
  import opened Options
  import opened Poller
  import opened Publisher
  import opened Session
  import opened SessionLaws

  /** The PID, if still scheduled, is due at the given time. */
  predicate NextAt(items: seq<Item>, pid: byte, x: int) {
    Scheduled(items, pid) ==> items[Find(items, pid)].due == x
  }

  lemma RequestedNext(items: seq<Item>, pid: byte, now: int, p: byte, x: int)
    requires Scheduled(items, pid)
    requires if p == pid then now + items[Find(items, pid)].interval == x else NextAt(items, p, x)
    ensures NextAt(Requested(items, pid, now), p, x)
  {
    hide Find;
    var i := Find(items, pid);
    TouchedFind(items, i, items[i].(due := now + items[i].interval), p);
  }

  lemma AnsweredNext(items: seq<Item>, pid: byte, at: int, p: byte, x: int)
    requires NextAt(items, p, x)
    ensures NextAt(Answered(items, pid, at), p, x)
  {
    hide Find;
    var i := Find(items, pid);
    if i < |items| {
      TouchedFind(items, i, items[i].(lastAnswer := at), p);
    }
  }

  lemma RemovedNext(items: seq<Item>, pid: byte, p: byte, x: int)
    requires ValidItems(items) && NextAt(items, p, x)
    ensures NextAt(Removed(items, pid), p, x)
  {
    hide Find, Removed, ValidItems;
    RemovedAt(items, pid, p);
  }

  /** What is due has reached its time. */
  lemma DueHasCome(items: seq<Item>, nowAt: Nanos)
    requires ValidItems(items)
    ensures var d := DueAt(items, nowAt);
            d.Some? ==> Scheduled(items, d.value) && items[Find(items, d.value)].due <= Ms(nowAt)
  {
    hide Best;
    SelectedIsFirst(items, Ms(nowAt));
  }

  lemma PollNext(cfg: IceConfig, s: Session, in_: Input, pid: byte, x: int)
    requires ValidConfig(cfg) && SessionInv(cfg, s) && in_.nowAt >= 0
    requires if Due(s, in_) == Some(pid) then x == Ms(in_.nowAt) + cfg.fastMs * TierOf(pid)
             else NextAt(s.items, pid, x)
    ensures NextAt(Poll(s, in_).0.items, pid, x)
  {
    hide NextAt, Requested, Answered, Removed, Best, Decode, ValidItems, Find, Plausible, SessionInv, TierOf;
    ItemsValid(cfg, s);
    DueHasCome(s.items, in_.nowAt);
    WatchedKeeps(s, in_.pollSeen);
    if Due(s, in_).Some? {
      var due := Due(s, in_).value;
      var items := Requested(s.items, due, Ms(in_.nowAt));
      var q := s.(items := items, unanswered := s.unanswered + 1);
      WatchedKeeps(q, in_.pollSeen);
      IntervalAt(cfg, s, due);
      RequestedNext(s.items, due, Ms(in_.nowAt), pid, x);
      AnsweredNext(items, due, Ms(in_.answerAt), pid, x);
      AskedKeeps(cfg, s, due, Ms(in_.nowAt), 0);
      ItemsValid(cfg, s.(items := items, unanswered := 0));
      RemovedNext(items, due, pid, x);
    }
  }

  lemma ItemsValid(cfg: IceConfig, s: Session)
    requires SessionInv(cfg, s)
    ensures ValidItems(s.items)
  {
  }

  lemma IntervalAt(cfg: IceConfig, s: Session, pid: byte)
    requires SessionInv(cfg, s) && Scheduled(s.items, pid)
    ensures s.items[Find(s.items, pid)].interval == cfg.fastMs * TierOf(pid)
  {
    hide TierOf, Find;
    assert s.items[Find(s.items, pid)] in s.items;
  }

  lemma PublishMovesNothing(cfg: IceConfig, s: Session, in_: Input)
    ensures PollTurn(cfg, s, in_).0.items == Poll(s, in_).0.items
  {
    hide Poll, StateOf;
  }

  /** Turn k of the run asks for the PID. */
  predicate AsksIn(cfg: IceConfig, inputs: seq<Input>, k: nat, pid: byte)
    requires k < |inputs|
  {
    var ready := Ready(cfg, SessionRun(cfg, inputs[..k]), inputs[k]);
    ready.Some? && Due(ready.value, inputs[k]) == Some(pid)
  }

  /** Through one turn: a PID asked for is next due an interval later; otherwise, if the vehicle was there all
      along, its time does not move. */
  lemma TurnNext(cfg: IceConfig, inputs: seq<Input>, k: nat, pid: byte, x: int)
    requires ValidConfig(cfg) && ClockFromZero(inputs) && k < |inputs|
    requires if AsksIn(cfg, inputs, k, pid) then x == Ms(inputs[k].nowAt) + cfg.fastMs * TierOf(pid)
             else SessionRun(cfg, inputs[..k]).discovered && NextAt(SessionRun(cfg, inputs[..k]).items, pid, x)
    ensures NextAt(SessionRun(cfg, inputs[..k + 1]).items, pid, x)
  {
    hide Poll, PollTurn, StateOf, NextAt, Due, SessionInv, Watched, TierOf;
    var s, in_ := SessionRun(cfg, inputs[..k]), inputs[k];
    assert inputs[..k + 1][..k] == inputs[..k];
    InvAlways(cfg, inputs[..k]);
    if s.discovered {
      PollNext(cfg, s, in_, pid, x);
      PublishMovesNothing(cfg, s, in_);
    } else {
      var ready := Ready(cfg, s, in_).value;
      WatchedInv(cfg, s, in_.discoverySeen);
      RediscoveredKeeps(cfg, Watched(s, in_.discoverySeen), in_.found.value);
      PollNext(cfg, ready, in_, pid, x);
      PublishMovesNothing(cfg, ready, in_);
    }
  }

  /** The vehicle is there from the end of turn i to the start of turn j. */
  predicate StaysUp(cfg: IceConfig, inputs: seq<Input>, i: nat, j: nat)
    requires j <= |inputs|
  {
    forall m :: i < m <= j ==> SessionRun(cfg, inputs[..m]).discovered
  }

  /** Turn i is the last before turn j to ask for the PID, and the vehicle has stayed since. */
  predicate LastAsked(cfg: IceConfig, inputs: seq<Input>, i: nat, j: nat, pid: byte)
    requires j <= |inputs|
  {
    && i < j && AsksIn(cfg, inputs, i, pid) && StaysUp(cfg, inputs, i, j)
    && forall m :: i < m < j ==> !AsksIn(cfg, inputs, m, pid)
  }

  lemma {:induction false} NextAfter(cfg: IceConfig, inputs: seq<Input>, i: nat, j: nat, pid: byte)
    requires ValidConfig(cfg) && ClockFromZero(inputs) && j <= |inputs| && LastAsked(cfg, inputs, i, j, pid)
    ensures NextAt(SessionRun(cfg, inputs[..j]).items, pid, Ms(inputs[i].nowAt) + cfg.fastMs * TierOf(pid))
  {
    hide SessionRun, NextAt, AsksIn, TierOf;
    if i + 1 < j {
      NextAfter(cfg, inputs, i, j - 1, pid);
    }
    TurnNext(cfg, inputs, j - 1, pid, Ms(inputs[i].nowAt) + cfg.fastMs * TierOf(pid));
  }

  /** A turn that began with the vehicle there asks for a PID no sooner than its time. */
  lemma AskedNoSooner(cfg: IceConfig, inputs: seq<Input>, k: nat, pid: byte, x: int)
    requires ValidConfig(cfg) && ClockFromZero(inputs) && k < |inputs| && AsksIn(cfg, inputs, k, pid)
    requires SessionRun(cfg, inputs[..k]).discovered && NextAt(SessionRun(cfg, inputs[..k]).items, pid, x)
    ensures x <= Ms(inputs[k].nowAt)
  {
    hide SessionRun, SessionInv, Best, Find;
    InvAlways(cfg, inputs[..k]);
    ItemsValid(cfg, SessionRun(cfg, inputs[..k]));
    DueHasCome(SessionRun(cfg, inputs[..k]).items, inputs[k].nowAt);
  }

  /** How many fast periods a PID's interval has. */
  function Periods(pid: byte): nat { if pid == 0x0D || pid == 0x0C then 1 else if pid == 0x05 then 5 else 20 }

  /** The last turn before turn j to ask for the PID, given an earlier one. */
  lemma {:induction false} FindLastAsked(cfg: IceConfig, inputs: seq<Input>, i: nat, j: nat, pid: byte) returns (m: nat)
    requires i < j <= |inputs| && AsksIn(cfg, inputs, i, pid) && StaysUp(cfg, inputs, i, j)
    ensures i <= m && LastAsked(cfg, inputs, m, j, pid)
    decreases j
  {
    hide SessionRun, AsksIn;
    if AsksIn(cfg, inputs, j - 1, pid) {
      m := j - 1;
    } else {
      m := FindLastAsked(cfg, inputs, i, j - 1, pid);
    }
  }

  /** While the vehicle stays, the same PID is never asked for twice within its interval: the fast period for speed
      and rpm, five of them for the coolant, twenty for the rest. */
  lemma {:induction false} NeverAskedTooSoon(cfg: IceConfig, inputs: seq<Input>, i: nat, j: nat, pid: byte)
    requires ValidConfig(cfg) && ClockFromZero(inputs) && i < j < |inputs| && StaysUp(cfg, inputs, i, j)
    requires AsksIn(cfg, inputs, i, pid) && AsksIn(cfg, inputs, j, pid)
    ensures Ms(inputs[j].nowAt) >= Ms(inputs[i].nowAt) + cfg.fastMs * Periods(pid)
    decreases j
  {
    hide SessionRun, NextAt, AsksIn, TierOf, Periods;
    var m := FindLastAsked(cfg, inputs, i, j, pid);
    AskedIsWanted(cfg, inputs, j, pid);
    NextAfter(cfg, inputs, m, j, pid);
    AskedNoSooner(cfg, inputs, j, pid, Ms(inputs[m].nowAt) + cfg.fastMs * TierOf(pid));
    if i < m {
      NeverAskedTooSoon(cfg, inputs, i, m, pid);
      NotNegative(cfg.fastMs, Periods(pid));
    }
  }

  lemma NotNegative(a: int, b: nat)
    requires a >= 0
    ensures a * b >= 0
  {
  }

  /** And it is not left waiting without need: a turn that finds the vehicle there and asks for nothing comes before
      the interval of every PID still scheduled has passed since that PID was asked for last. */
  lemma IdleOnlyWhenNoneIsDue(cfg: IceConfig, inputs: seq<Input>, i: nat, j: nat, pid: byte)
    requires ValidConfig(cfg) && ClockFromZero(inputs) && j < |inputs| && LastAsked(cfg, inputs, i, j, pid)
    requires Due(SessionRun(cfg, inputs[..j]), inputs[j]).None?
    requires Scheduled(SessionRun(cfg, inputs[..j]).items, pid)
    ensures Ms(inputs[j].nowAt) < Ms(inputs[i].nowAt) + cfg.fastMs * Periods(pid)
  {
    hide SessionRun, AsksIn, TierOf, Periods, Find;
    NextAfter(cfg, inputs, i, j, pid);
    AskedIsWanted(cfg, inputs, i, pid);
  }

  lemma AskedIsWanted(cfg: IceConfig, inputs: seq<Input>, k: nat, pid: byte)
    requires ValidConfig(cfg) && ClockFromZero(inputs) && k < |inputs| && AsksIn(cfg, inputs, k, pid)
    ensures TierOf(pid) == Periods(pid) && pid in {0x05, 0x0C, 0x0D, 0x2F, 0x42, 0x46, 0xA6}
  {
    hide SessionRun, Best, Find, ValidItems, Watched, ScheduleUpTo;
    var s := SessionRun(cfg, inputs[..k]);
    InvAlways(cfg, inputs[..k]);
    WatchedInv(cfg, s, inputs[k].discoverySeen);
    if !s.discovered {
      RediscoveredKeeps(cfg, Watched(s, inputs[k].discoverySeen), inputs[k].found.value);
    }
    DueIsScheduled(Ready(cfg, s, inputs[k]).value, inputs[k]);
    assert Wanted(pid);
  }

  // ---------------------------------------------------------------- on the bus

  lemma BlocksAskFor(n: nat)
    requires n <= 7
    ensures |BlockRequests(n)| == n && forall i :: 0 <= i < n ==> AsksFor(BlockRequests(n)[i], 0x20 * i)
  {
    hide AsksFor;
  }

  lemma WalkAsks(broadcastId: int, walk: Exchange, ecu: nat, found: Option<set<byte>>)
    requires Advertises(broadcastId, walk, ecu, found)
    ensures 1 <= |walk.asked| <= 7 && forall i :: 0 <= i < |walk.asked| ==> AsksFor(walk.asked[i], 0x20 * i)
  {
    hide AsksFor, NoBitmap, Flat, BlockAnswered, NextBlockAdvertised;
    var parts, answers :| Walked(broadcastId, parts, ecu, answers) && |parts| <= 7
                          && walk == Exchange(BlockRequests(|parts|), Flat(parts))
                          && found == if answers == [] then None else Some(Advertised(answers));
    BlocksAskFor(|parts|);
  }

  /** All a turn of a recorded run asks of the bus is mode 01 requests: without a vehicle, for the bitmaps of blocks
      0, 1, ... in turn; with one, for the PID due, if there is one, which is one of the seven polled. */
  lemma RequestsOnBus(cfg: IceConfig, broadcastId: int, inputs: seq<Input>, log: seq<Traffic>, k: nat)
    requires ValidConfig(cfg) && ClockFromZero(inputs) && AllHeard(cfg, broadcastId, inputs, log) && k < |inputs|
    ensures var s, asked := SessionRun(cfg, inputs[..k]), log[k].walk.asked;
            && (asked == [] <==> s.discovered)
            && |asked| <= 7 && forall i :: 0 <= i < |asked| ==> AsksFor(asked[i], 0x20 * i)
    ensures var asked := log[k].poll.asked;
            && |asked| <= 1
            && forall pid: byte :: AsksIn(cfg, inputs, k, pid) <==> |asked| == 1 && AsksFor(asked[0], pid)
    ensures forall pid: byte :: AsksIn(cfg, inputs, k, pid) ==> pid in {0x05, 0x0C, 0x0D, 0x2F, 0x42, 0x46, 0xA6}
  {
    hide SessionRun, Due, RequestFrame, Replied, Broadcasts, Advertises, AsksFor, Watched, Rediscovered;
    var s := SessionRun(cfg, inputs[..k]);
    assert Heard(cfg, broadcastId, s, inputs[k], log[k]);
    if !s.discovered {
      WalkAsks(broadcastId, log[k].walk, log[k].ecu, inputs[k].found);
    }
    forall pid: byte
      ensures AsksIn(cfg, inputs, k, pid) <==> |log[k].poll.asked| == 1 && AsksFor(log[k].poll.asked[0], pid)
      ensures AsksIn(cfg, inputs, k, pid) ==> pid in {0x05, 0x0C, 0x0D, 0x2F, 0x42, 0x46, 0xA6}
    {
      if AsksIn(cfg, inputs, k, pid) {
        AskedIsWanted(cfg, inputs, k, pid);
      } else if |log[k].poll.asked| == 1 && AsksFor(log[k].poll.asked[0], pid) {
        AsksForOne(log[k].poll.asked[0], pid, Due(Ready(cfg, s, inputs[k]).value, inputs[k]).value);
      }
    }
  }

  // ---------------------------------------------------------------- where it starts

  /** The first PID of the poll list among those found: the order in which a vehicle just found is asked. */
  function FirstOf(found: set<byte>): Option<byte> {
    if 0x0D in found then Some(0x0D)
    else if 0x0C in found then Some(0x0C)
    else if 0x05 in found then Some(0x05)
    else if 0x2F in found then Some(0x2F)
    else if 0x42 in found then Some(0x42)
    else if 0x46 in found then Some(0x46)
    else if 0xA6 in found then Some(0xA6)
    else None
  }

  /** All due at once, unanswered, the shorter intervals first. */
  predicate JustScheduled(items: seq<Item>) {
    && (forall i :: 0 <= i < |items| ==> items[i].due == 0 && items[i].lastAnswer == -1 && items[i].interval > 0)
    && (forall i, j :: 0 <= i <= j < |items| ==> items[i].interval <= items[j].interval)
  }

  lemma {:induction false} FirstScheduled(found: set<byte>, fastMs: int, n: nat)
    requires fastMs > 0 && n <= |WANTED|
    ensures var items := ScheduleUpTo(found, fastMs, n);
            && JustScheduled(items)
            && (items != [] ==> n > 0 && items[|items| - 1].interval <= fastMs * WANTED[n - 1].1)
            && (items == [] <==> forall k :: 0 <= k < n ==> WANTED[k].0 !in found)
            && (items != [] ==> exists k :: 0 <= k < n && items[0].pid == WANTED[k].0 && WANTED[k].0 in found
                                            && forall m :: 0 <= m < k ==> WANTED[m].0 !in found)
  {
    hide Find;
    if n > 0 {
      FirstScheduled(found, fastMs, n - 1);
      TiersAscend(fastMs, n);
    }
  }

  lemma TiersAscend(fastMs: int, n: nat)
    requires fastMs > 0 && 0 < n <= |WANTED|
    ensures fastMs * WANTED[n - 1].1 > 0
    ensures n > 1 ==> fastMs * WANTED[n - 2].1 <= fastMs * WANTED[n - 1].1
  {
    Scale(0, WANTED[n - 1].1, fastMs);
    if n > 1 { Scale(WANTED[n - 2].1, WANTED[n - 1].1, fastMs); }
  }

  lemma {:induction false} FirstIsBest(items: seq<Item>, now: int, n: nat)
    requires JustScheduled(items) && now >= 0 && n <= |items|
    ensures Best(items, now, n) == if n == 0 then None else Some(0)
  {
    if n > 1 {
      FirstIsBest(items, now, n - 1);
      ByInterval(now, items[0].interval, items[n - 1].interval);
    }
  }

  lemma ByInterval(now: int, a: int, b: int)
    requires now >= 0 && a <= b
    ensures now * a <= now * b
  {
  }

  /** A vehicle just found is asked at once, for the first PID of the poll list that it has; if it has none, for
      nothing. */
  lemma FirstAskedFor(cfg: IceConfig, s: Session, in_: Input)
    requires ValidConfig(cfg) && in_.nowAt >= 0 && !s.discovered && in_.found.Some?
    ensures Ready(cfg, s, in_).Some? && Due(Ready(cfg, s, in_).value, in_) == FirstOf(in_.found.value)
  {
    hide JustScheduled, Best, Watched;
    var found, items := in_.found.value, ScheduleUpTo(in_.found.value, cfg.fastMs, |WANTED|);
    FirstScheduled(found, cfg.fastMs, |WANTED|);
    FirstIsBest(items, Ms(in_.nowAt), |items|);
    if items != [] {
      var k :| 0 <= k < |WANTED| && items[0].pid == WANTED[k].0 && WANTED[k].0 in found
        && forall m :: 0 <= m < k ==> WANTED[m].0 !in found;
      FirstListed(found, k);
    } else {
      NoneListed(found);
    }
  }

  lemma FirstListed(found: set<byte>, k: nat)
    requires k < |WANTED| && WANTED[k].0 in found && forall m :: 0 <= m < k ==> WANTED[m].0 !in found
    ensures FirstOf(found) == Some(WANTED[k].0)
  {
    assert k > 0 ==> WANTED[0].0 !in found;
    assert k > 1 ==> WANTED[1].0 !in found;
    assert k > 2 ==> WANTED[2].0 !in found;
    assert k > 3 ==> WANTED[3].0 !in found;
    assert k > 4 ==> WANTED[4].0 !in found;
    assert k > 5 ==> WANTED[5].0 !in found;
  }

  lemma NoneListed(found: set<byte>)
    requires forall k :: 0 <= k < |WANTED| ==> WANTED[k].0 !in found
    ensures FirstOf(found) == None
  {
    if p: byte :| p in {0x05, 0x0C, 0x0D, 0x2F, 0x42, 0x46, 0xA6} && p in found {
      WantedListed(p);
      var n := |WANTED|;
      ListedAt(p, n);
    }
  }

  lemma {:induction false} ListedAt(p: byte, n: nat)
    requires n <= |WANTED| && Listed(p, n)
    ensures exists k :: 0 <= k < n && WANTED[k].0 == p
  {
    if WANTED[n - 1].0 != p {
      ListedAt(p, n - 1);
    }
  }
}
