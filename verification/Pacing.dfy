/** What the plugin tells the host and when: turn by turn, exactly which calls are made, and over whole runs,
    exactly which turns publish. */
module Pacing {
  import opened EndToEnd
  import opened Obd2Ice
  import opened Options
  import opened Poller
  import opened Publisher
  import opened Session
  import opened SessionLaws

  /** The calls made in turn k. */
  function CallsOf(cfg: IceConfig, inputs: seq<Input>, k: nat): seq<HostCall>
    requires k < |inputs|
  {
    Iterate(cfg, SessionRun(cfg, inputs[..k]), inputs[k]).1
  }

  /** Turn k ended with the vehicle there. */
  predicate EndsUp(cfg: IceConfig, inputs: seq<Input>, k: nat)
    requires k < |inputs|
  {
    SessionRun(cfg, inputs[..k + 1]).discovered
  }

  ghost predicate Publishes(calls: seq<HostCall>) { exists c :: c in calls && c.Publish? }

  /** Turn j ended with the vehicle there and published. */
  ghost predicate Paced(cfg: IceConfig, inputs: seq<Input>, j: nat) {
    j < |inputs| && EndsUp(cfg, inputs, j) && Publishes(CallsOf(cfg, inputs, j))
  }

  /** Turn j is the last such turn before turn k. */
  ghost predicate LastPaced(cfg: IceConfig, inputs: seq<Input>, k: nat, j: nat) {
    j < k && Paced(cfg, inputs, j) && forall i :: j < i < k ==> !Paced(cfg, inputs, i)
  }

  /** All a turn tells the host. A turn that looked for the vehicle in vain: link down, and a state that announces
      what was last known and marks nothing valid. Any other: link up first if the vehicle was just found;
      then link down if it was lost, and otherwise at most the state at the end of the turn. */
  lemma CallsExactly(cfg: IceConfig, inputs: seq<Input>, k: nat)
    requires k < |inputs|
    ensures var s, in_, calls := SessionRun(cfg, inputs[..k]), inputs[k], CallsOf(cfg, inputs, k);
            var s' := SessionRun(cfg, inputs[..k + 1]);
            if !s.discovered && in_.found.None? then
              && |calls| == 2 && calls[0] == SetLink(false, in_.linkAt)
              && calls[1] == Publish(StateOf(cfg, s', Ms(in_.nowAt)), in_.nowAt, in_.publishAt)
              && s'.values == map[] && s'.supported == s.supported && !s'.discovered
            else
              calls ==
              (if s.discovered then [] else [SetLink(true, in_.linkAt)]) +
              (if !s'.discovered then [SetLink(false, in_.lostAt)]
               else if Publishes(calls)
                    then [Publish(StateOf(cfg, s', Ms(in_.sampledAt)), in_.sampledAt, in_.publishAt)] else [])
  {
    hide StateOf, PollTurn, Watched;
    var s, in_ := SessionRun(cfg, inputs[..k]), inputs[k];
    assert inputs[..k + 1][..k] == inputs[..k];
    WatchedKeeps(s, in_.discoverySeen);
    if s.discovered {
      PollCalls(cfg, s, in_);
      var calls := PollTurn(cfg, s, in_).1;
      assert [] + calls == calls;
    } else if in_.found.Some? {
      var ready := Rediscovered(cfg, Watched(s, in_.discoverySeen), in_.found.value);
      PollCalls(cfg, ready, in_);
      AfterLink(in_.linkAt, PollTurn(cfg, ready, in_).1);
    }
  }

  lemma AfterLink(at: Nanos, calls: seq<HostCall>)
    ensures Publishes([SetLink(true, at)] + calls) <==> Publishes(calls)
  {
    var all := [SetLink(true, at)] + calls;
    if c :| c in calls && c.Publish? {
      assert c in all;
    }
  }

  /** The part of a turn that polls. */
  lemma PollCalls(cfg: IceConfig, s: Session, in_: Input)
    requires s.discovered
    ensures var (s', calls) := PollTurn(cfg, s, in_);
            calls == if !s'.discovered then [SetLink(false, in_.lostAt)]
                     else if Publishes(calls)
                          then [Publish(StateOf(cfg, s', Ms(in_.sampledAt)), in_.sampledAt, in_.publishAt)] else []
    ensures var (s', calls) := PollTurn(cfg, s, in_);
            s'.discovered ==> (Publishes(calls) <==> Ms(in_.checkAt) >= s.nextPublish)
    ensures var (s', calls) := PollTurn(cfg, s, in_);
            s'.nextPublish == if Publishes(calls) then Ms(in_.rearmAt) + 50 else s.nextPublish
  {
    hide StateOf, Poll;
    PollDiscovered(s, in_);
    PollUnpaced(s, in_);
    StateUnseen(cfg, Poll(s, in_).0, Ms(in_.rearmAt) + 50, Ms(in_.sampledAt));
    var calls := PollTurn(cfg, s, in_).1;
    if calls != [] {
      assert calls == [calls[0]] && calls[0] in calls;
    }
  }

  lemma PollUnpaced(s: Session, in_: Input)
    ensures Poll(s, in_).0.nextPublish == s.nextPublish
  {
    hide Due, ReadValue, Requested, Answered, Removed, Plausible;
    WatchedKeeps(s, in_.pollSeen);
    if Due(s, in_).Some? {
      var q := s.(items := Requested(s.items, Due(s, in_).value, Ms(in_.nowAt)), unanswered := s.unanswered + 1);
      WatchedKeeps(q, in_.pollSeen);
    }
  }

  /** One turn's share: it is a pacing one exactly when it ends with the vehicle there and the time has come, and
      only such a turn moves that time. */
  lemma TurnPace(cfg: IceConfig, inputs: seq<Input>, k: nat)
    requires k < |inputs|
    ensures var s, s' := SessionRun(cfg, inputs[..k]), SessionRun(cfg, inputs[..k + 1]);
            && (EndsUp(cfg, inputs, k) ==> (Paced(cfg, inputs, k) <==> Ms(inputs[k].checkAt) >= s.nextPublish))
            && s'.nextPublish == if Paced(cfg, inputs, k) then Ms(inputs[k].rearmAt) + 50 else s.nextPublish
  {
    hide StateOf, PollTurn, Watched;
    var s, in_ := SessionRun(cfg, inputs[..k]), inputs[k];
    assert inputs[..k + 1][..k] == inputs[..k];
    WatchedKeeps(s, in_.discoverySeen);
    if s.discovered {
      PollCalls(cfg, s, in_);
      LostIsSilent(cfg, s, in_);
    } else if in_.found.Some? {
      var ready := Rediscovered(cfg, Watched(s, in_.discoverySeen), in_.found.value);
      PollCalls(cfg, ready, in_);
      LostIsSilent(cfg, ready, in_);
      AfterLink(in_.linkAt, PollTurn(cfg, ready, in_).1);
    }
  }

  lemma LostIsSilent(cfg: IceConfig, s: Session, in_: Input)
    requires s.discovered
    ensures !PollTurn(cfg, s, in_).0.discovered ==> !Publishes(PollTurn(cfg, s, in_).1)
  {
    hide PollTurn;
    PollCalls(cfg, s, in_);
  }

  /** The time kept in the session is that of the last pacing turn, whatever was lost and found since. */
  lemma {:induction false} PaceKept(cfg: IceConfig, inputs: seq<Input>, k: nat) returns (last: Option<nat>)
    requires k <= |inputs|
    ensures var s := SessionRun(cfg, inputs[..k]);
            if last.None? then s.nextPublish == 0 && forall i :: 0 <= i < k ==> !Paced(cfg, inputs, i)
            else LastPaced(cfg, inputs, k, last.value)
                 && s.nextPublish == Ms(inputs[last.value].rearmAt) + 50
  {
    hide Paced, Iterate;
    last := None;
    if k > 0 {
      last := PaceKept(cfg, inputs, k - 1);
      TurnPace(cfg, inputs, k - 1);
      if Paced(cfg, inputs, k - 1) {
        last := Some(k - 1);
      }
    }
  }

  /** Over every run, whether it asked for a PID or idled: a turn that ends with the vehicle there publishes
      exactly when no such turn has published before, or the clock stands at least 50 ms past the reading
      taken after the last such publish. */
  lemma PublishesExactlyWhen(cfg: IceConfig, inputs: seq<Input>, k: nat)
    requires k < |inputs| && inputs[k].checkAt >= 0 && EndsUp(cfg, inputs, k)
    ensures Publishes(CallsOf(cfg, inputs, k)) <==>
              forall j: nat :: LastPaced(cfg, inputs, k, j) ==> Ms(inputs[k].checkAt) >= Ms(inputs[j].rearmAt) + 50
  {
    hide CallsOf, SessionRun;
    TurnPace(cfg, inputs, k);
    var last := PaceKept(cfg, inputs, k);
    forall j: nat | LastPaced(cfg, inputs, k, j)
      ensures last == Some(j)
    {
      assert Paced(cfg, inputs, j);
    }
  }

  /** From turn j to turn k the vehicle is there at the end of every turn, and the readings that decide about
      publishing are at most `gap` milliseconds apart. */
  ghost predicate SteadyClock(cfg: IceConfig, inputs: seq<Input>, j: nat, k: nat, gap: int) {
    && j <= k < |inputs|
    && forall i :: j < i <= k ==> EndsUp(cfg, inputs, i) && Ms(inputs[i].checkAt) - Ms(inputs[i - 1].checkAt) <= gap
  }

  /** While the vehicle stays, the plugin does not fall silent: after a publish the next one is decided upon less
      than 50 ms and one gap after the reading that followed it. */
  lemma {:induction false} NextPublishComes(cfg: IceConfig, inputs: seq<Input>, j: nat, k: nat, gap: int)
      returns (i: nat)
    requires Timely(inputs) && SteadyClock(cfg, inputs, j, k, gap) && Paced(cfg, inputs, j)
    requires Ms(inputs[k].checkAt) >= Ms(inputs[j].rearmAt) + 50
    ensures j < i <= k && LastPaced(cfg, inputs, i, j) && Paced(cfg, inputs, i)
    ensures Ms(inputs[j].rearmAt) + 50 <= Ms(inputs[i].checkAt) < Ms(inputs[j].rearmAt) + 50 + gap
    decreases k
  {
    hide EndsUp, Publishes, CallsOf;
    var due := Ms(inputs[j].rearmAt) + 50;
    assert Clocked(inputs[j], inputs[j].nowAt, inputs[j].rearmAt);
    assert Ms(inputs[j].checkAt) <= Ms(inputs[j].rearmAt);
    if Ms(inputs[k - 1].checkAt) >= due {
      i := NextPublishComes(cfg, inputs, j, k - 1, gap);
    } else {
      i := k;
      NoneBefore(cfg, inputs, j, k, gap);
      CheckedLate(inputs, k);
      PublishesExactlyWhen(cfg, inputs, k);
      forall j': nat | LastPaced(cfg, inputs, k, j')
        ensures j' == j
      {
        assert Paced(cfg, inputs, j');
      }
    }
  }

  lemma CheckedLate(inputs: seq<Input>, k: nat)
    requires Timely(inputs) && k < |inputs|
    ensures inputs[k].checkAt >= 0
  {
    assert Clocked(inputs[k], inputs[k].nowAt, inputs[k].rearmAt);
  }

  lemma {:induction false} NoneBefore(cfg: IceConfig, inputs: seq<Input>, j: nat, k: nat, gap: int)
    requires Timely(inputs) && SteadyClock(cfg, inputs, j, k, gap) && Paced(cfg, inputs, j) && j < k
    requires Ms(inputs[k - 1].checkAt) < Ms(inputs[j].rearmAt) + 50
    ensures LastPaced(cfg, inputs, k, j)
  {
    hide EndsUp, Publishes, CallsOf;
    if j + 1 < k {
      ChecksInOrder(inputs, k - 2);
      NoneBefore(cfg, inputs, j, k - 1, gap);
      CheckedLate(inputs, k - 1);
      PublishesExactlyWhen(cfg, inputs, k - 1);
      assert LastPaced(cfg, inputs, k - 1, j);
    }
  }

  lemma ChecksInOrder(inputs: seq<Input>, k: nat)
    requires Timely(inputs) && k + 1 < |inputs|
    ensures inputs[k].checkAt <= inputs[k + 1].checkAt
  {
    assert Clocked(inputs[k], inputs[k].nowAt, inputs[k].rearmAt);
    assert Clocked(inputs[k + 1], inputs[k + 1].nowAt, inputs[k + 1].rearmAt);
    assert inputs[k].rearmAt <= inputs[k + 1].nowAt;
  }
}
