/** The obd2-ice plugin object. Its loop body updates the fields in place, calls the client and the
    host, and reads the clock at each point where the source does; it is proved to perform one
    transition of the session, whatever the bus and the clock do meanwhile. */
module Obd2Ice {
  import opened BitMasks
  import opened Contract
  import opened J1979
  import opened J1979Client
  import opened Options
  import opened Poller
  import opened Publisher
  import opened Session
  import opened SessionLaws
  import opened Vehicle

  predicate SeenWithin(seen: seq<Seen>, from: Nanos, to: Nanos) {
    forall i :: 0 <= i < |seen| ==> from <= seen[i].at <= to
  }

  /** The times read during a turn, in the order they are read. */
  predicate Clocked(in_: Input, from: Nanos, to: Nanos) {
    && SeenWithin(in_.discoverySeen, in_.nowAt, in_.linkAt) && SeenWithin(in_.pollSeen, in_.linkAt, in_.lostAt)
    && from <= in_.nowAt <= in_.linkAt <= in_.answerAt <= in_.lostAt
    && in_.lostAt <= in_.checkAt <= in_.sampledAt <= in_.publishAt <= in_.rearmAt <= to
  }

  class Plugin {
    const cfg: IceConfig
    const client: Client
    const poller: Poller
    const store: StateStore
    var discovered: bool
    var supported: set<byte>
    var values: map<byte, real>
    var lamps: Mask
    var lampsSeenMs: int
    var nextPublish: int
    /** Everything told to the host so far. */
    ghost var calls: seq<HostCall>

    ghost function State(): Session
      reads this, poller
    {
      Session(discovered, supported, poller.items, poller.unanswered, values, lamps, lampsSeenMs, nextPublish)
    }

    constructor (cfg: IceConfig, client: Client, store: StateStore)
      ensures this.cfg == cfg && this.client == client && this.store == store && fresh(poller)
      ensures State() == FRESH_SESSION && calls == []
    {
      this.cfg, this.client, this.store := cfg, client, store;
      poller := new Poller();
      discovered, supported, values, lamps, lampsSeenMs, nextPublish := false, {}, map[], 0, -1, 0;
      calls := [];
    }

    /** Broadcast frames read while waiting, applied in order. */
    method Watch(seen: seq<Seen>)
      modifies this`lamps, this`lampsSeenMs
      ensures State() == Watched(old(State()), seen)
    {
      for i := 0 to |seen|
        invariant State() == Watched(old(State()), seen[..i])
      {
        assert seen[..i + 1][..i] == seen[..i];
        var f := seen[i].frame;
        if f.dlc >= 2 {
          var bits := f.data[0] as int + 0x100 * f.data[1] as int;
          if f.dlc >= 4 {
            bits := bits + 0x1_0000 * f.data[2] as int + 0x100_0000 * f.data[3] as int;
          }
          lamps := bits;
          lampsSeenMs := Ms(seen[i].at);
        }
      }
      assert seen[..|seen|] == seen;
    }

    method CheckPlausible(pid: byte, v: real) returns (ok: bool)
      modifies this`supported, this`values, poller
      ensures ok == Plausible(pid, v)
      ensures ok <==> !(pid == 0x42 && v < 6.0) && !(pid == 0x46 && v <= -40.0)
      ensures State() == if ok then old(State()) else Dropped(old(State()), pid)
    {
      ok := true;
      if pid == PID_MODULE_VOLTAGE && v < 6.0 { ok := false; }
      if pid == PID_AMBIENT_TEMP && v <= -40.0 { ok := false; }
      if !ok {
        supported := supported - {pid};
        poller.Remove(pid);
        values := values - {pid};
      }
    }

    /** Discovery replaces the advertised set, the schedule and the stored values, but only on success. */
    method Discover() returns (found: Option<set<byte>>, seen: seq<Seen>, ghost walk: Exchange)
      modifies this, poller, client, client.channel
      ensures client.channel.now >= old(client.channel.now) && calls == old(calls)
      ensures old(client.channel.pending) == walk.read + client.channel.pending
      ensures client.channel.offered == old(client.channel.offered) + walk.asked
      ensures Sunk(client.broadcastId, walk.read, seen, old(client.channel.now), client.channel.now)
      ensures Advertises(client.broadcastId, walk, client.primaryEcu, found)
      ensures found.Some? ==> IsResponseId(client.primaryEcu)
      ensures found.None? ==> State() == Watched(old(State()), seen)
      ensures found.Some? ==>
                State() == Rediscovered(cfg, Watched(old(State()), seen), found.value).(discovered := old(discovered))
    {
      hide Watched, Sunk, Advertised, Walked, BlockRequests, Flat;
      var ok;
      ghost var parts, answers;
      ok, seen, parts, answers := client.Discover();
      walk := Exchange(BlockRequests(|parts|), Flat(parts));
      Watch(seen);
      found := None;
      if !ok {
        assert Walked(client.broadcastId, parts, client.primaryEcu, answers);
        return;
      }
      found := Some(client.supported);
      assert Walked(client.broadcastId, parts, client.primaryEcu, answers) && client.supported == Advertised(answers);
      WalkedEcu(client.broadcastId, parts, client.primaryEcu, answers);
      supported := client.supported;
      Reschedule();
      values := map[];
    }

    /** Schedules every wanted PID the vehicle advertises, all due at once. */
    method Reschedule()
      modifies poller
      ensures poller.items == ScheduleUpTo(supported, cfg.fastMs, |WANTED|) && poller.unanswered == 0
    {
      poller.Clear();
      for i := 0 to |WANTED|
        modifies poller
        invariant poller.items == ScheduleUpTo(supported, cfg.fastMs, i) && poller.unanswered == 0
      {
        var (pid, tier) := WANTED[i];
        if pid in supported {
          poller.Add(pid, cfg.fastMs * tier);
        }
      }
    }

    /** Which signals are announced and which are valid, and the power state read off the rpm. */
    method Masks(now: int) returns (capable: Mask, valid: Mask, power: int)
      ensures capable == CapableMask(supported) && valid == ValidMask(State(), now)
      ensures power == StateOf(cfg, State(), now).powerState
    {
      MasksFit();
      var c: nat, v: nat := 0, 0;
      hide With, Pow2, Fresh;
      for i := 0 to |REPORTED|
        invariant c == CapableUpTo(supported, i) && v == ValidUpTo(State(), now, i)
      {
        var (pid, sig) := REPORTED[i];
        if pid in supported {
          c := With(c, sig);
          if pid in values {
            var fresh_ := poller.IsFresh(pid, now);
            if fresh_ {
              v := With(v, sig);
            }
          }
        }
      }
      hide CapableUpTo, ValidUpTo;
      power := 0;
      var rpmFresh := poller.IsFresh(PID_RPM, now);
      if PID_RPM in supported {
        c := With(c, SIG_POWER_STATE);
        if PID_RPM in values && rpmFresh {
          v := With(v, SIG_POWER_STATE);
          power := if values[PID_RPM] > 0.0 then POWER_READY else POWER_ON;
        }
      }
      assert c == CapableMask(supported) && v == ValidMask(State(), now);
      capable, valid := c, v;
    }

    /** Builds the vehicle state signal by signal. */
    method BuildState(now: int) returns (s: VehicleState)
      ensures s == StateOf(cfg, State(), now)
    {
      hide CapableMask, ValidMask, Value;
      var capable, valid, power := Masks(now);
      var speed := Field(PID_SPEED, now);
      var rpm := Field(PID_RPM, now);
      var coolant := Field(PID_COOLANT_TEMP, now);
      var fuel := Field(PID_FUEL_LEVEL, now);
      var aux := Field(PID_MODULE_VOLTAGE, now);
      var ambient := Field(PID_AMBIENT_TEMP, now);
      var odometer := Field(PID_ODOMETER, now);
      s := BLANK.(capable := capable, valid := valid, drivetrain := DRIVETRAIN_ICE, source := cfg.source,
                  vehicleId := cfg.vehicleId, speedKmh := speed, rpm := rpm, powerState := power,
                  coolantC := coolant, fuelPct := fuel, auxBatteryV := aux, ambientC := ambient, odometerKm := odometer,
                  lamps := if lampsSeenMs >= 0 && now - lampsSeenMs <= 500 then lamps else 0);
    }

    method Field(pid: byte, now: int) returns (v: real)
      ensures v == Value(State(), pid, now)
    {
      var fresh_ := poller.IsFresh(pid, now);
      v := if pid in supported && pid in values && fresh_ then values[pid] else 0.0;
    }

    /** host.publish: the state is sampled at one time and stamped by the host at another. */
    method PublishState(sampledAt: Nanos) returns (at: Nanos)
      modifies this`calls, store, client.channel`now
      ensures at == client.channel.now >= old(client.channel.now)
      ensures calls == old(calls) + [Publish(StateOf(cfg, State(), Ms(sampledAt)), sampledAt, at)]
      ensures store.data == Published(old(store.data), StateOf(cfg, State(), Ms(sampledAt)), at)
    {
      hide StateOf;
      var s := BuildState(Ms(sampledAt));
      at := client.channel.ReadClock();
      store.Publish(s, at);
      calls := calls + [Publish(s, sampledAt, at)];
    }

    method TellLink(present: bool) returns (at: Nanos)
      modifies this`calls, store, client.channel`now
      ensures at == client.channel.now >= old(client.channel.now)
      ensures calls == old(calls) + [SetLink(present, at)]
      ensures store.data == Linked(old(store.data), present)
    {
      at := client.channel.ReadClock();
      store.SetLink(present, at);
      calls := calls + [SetLink(present, at)];
    }

    /** Requests a scheduled PID and drains the bus until it is answered or given up. */
    method Ask(pid: byte, nowAt: Nanos)
        returns (v: Option<real>, seen: seq<Seen>, answer: Option<Response>, ghost read: seq<CanFrame>)
      requires Scheduled(poller.items, pid)
      modifies this`lamps, this`lampsSeenMs, poller, client`primaryEcu, client.channel
      ensures client.channel.now >= old(client.channel.now)
      ensures old(client.channel.pending) == read + client.channel.pending
      ensures Sunk(client.broadcastId, read, seen, old(client.channel.now), client.channel.now)
      ensures v == if answer.Some? then Decode(pid, answer.value.payload) else None
      ensures client.channel.offered == old(client.channel.offered) + [RequestFrame(pid)]
      ensures Replied(client.broadcastId, old(client.primaryEcu), pid, read, answer)
      ensures client.channel.sent == old(client.channel.sent) ==> answer.None? && read == []
      ensures client.channel.timeouts == old(client.channel.timeouts)
                + if answer.None? && client.channel.sent != old(client.channel.sent) then 1 else 0
      ensures old(client.primaryEcu) != 0 ==> client.primaryEcu == old(client.primaryEcu)
      ensures State() == Watched(old(State()).(items := Requested(old(poller.items), pid, Ms(nowAt)),
                                               unanswered := old(poller.unanswered) + 1), seen)
      ensures Scheduled(poller.items, pid)
    {
      hide Decode, Sunk, Replied, RequestFrame, Watched;
      RequestedStays(State(), pid, Ms(nowAt));
      poller.MarkRequested(pid, Ms(nowAt));
      v, answer, seen, read := client.Query(pid);
      ghost var asked := State();
      Watch(seen);
      ItemsUnwatched(asked, seen);
    }

    /** A decoded answer is stored unless it is a filler. */
    method Take(pid: byte, v: real) returns (at: Nanos)
      requires Scheduled(poller.items, pid)
      modifies this`supported, this`values, poller, client.channel`now
      ensures old(client.channel.now) <= at == client.channel.now
      ensures State() == if Plausible(pid, v) then Accepted(old(State()), pid, v, at) else Dropped(old(State()), pid)
    {
      var ok := CheckPlausible(pid, v);
      at := client.channel.now;
      if ok {
        values := values[pid := v];
        at := client.channel.ReadClock();
        poller.MarkAnswered(pid, Ms(at));
      }
    }

    /** The request or idle wait of a turn. */
    method PollOnce(nowAt: Nanos)
        returns (seen: seq<Seen>, answer: Option<Response>, answerAt: Nanos, lost: bool, ghost poll: Exchange)
      requires client.primaryEcu != 0
      modifies this, poller, client`primaryEcu, client.channel
      ensures old(client.channel.now) <= answerAt <= client.channel.now && calls == old(calls)
      ensures client.primaryEcu == old(client.primaryEcu)
      ensures old(client.channel.pending) == poll.read + client.channel.pending
      ensures client.channel.offered == old(client.channel.offered) + poll.asked
      ensures Sunk(client.broadcastId, poll.read, seen, old(client.channel.now), client.channel.now)
      ensures PollHeard(client.broadcastId, old(State()), PollInput(nowAt, seen, answer, answerAt),
                        poll, client.primaryEcu)
      ensures Poll(old(State()), PollInput(nowAt, seen, answer, answerAt)) == (State(), lost)
    {
      hide Watched, Decode, Requested, Accepted, Dropped, Plausible, Sunk, Replied, RequestFrame, Best;
      answer, answerAt, lost := None, client.channel.now, false;
      ghost var from := client.channel.now;
      var pid := poller.NextDue(Ms(nowAt));
      if pid.Some? {
        SelectedScheduled(poller.items, Ms(nowAt));
        var v;
        ghost var read;
        v, seen, answer, read := Ask(pid.value, nowAt);
        poll := Exchange([RequestFrame(pid.value)], read);
        ghost var mid := client.channel.now;
        answerAt := client.channel.now;
        if v.Some? {
          answerAt := Take(pid.value, v.value);
          SunkLater(client.broadcastId, read, seen, from, mid, client.channel.now);
        } else if poller.unanswered >= 5 {
          discovered := false;
          lost := true;
        }
      } else {
        ghost var read;
        seen, read := client.Idle();
        poll := Exchange([], read);
        Watch(seen);
      }
    }

    /** The part of a turn that needs a vehicle: request or wait, then publish when it is time. */
    method PollAndPublish(nowAt: Nanos, linkAt: Nanos, discoverySeen: seq<Seen>, found: Option<set<byte>>)
        returns (ghost in_: Input, ghost poll: Exchange)
      requires nowAt <= linkAt <= client.channel.now && SeenWithin(discoverySeen, nowAt, linkAt)
      requires client.primaryEcu != 0
      modifies this, poller, client`primaryEcu, client.channel, store
      ensures in_.nowAt == nowAt && in_.linkAt == linkAt && in_.discoverySeen == discoverySeen && in_.found == found
      ensures Clocked(in_, nowAt, client.channel.now)
      ensures client.primaryEcu == old(client.primaryEcu)
      ensures old(client.channel.pending) == poll.read + client.channel.pending
      ensures client.channel.offered == old(client.channel.offered) + poll.asked
      ensures FramesOf(in_.pollSeen) == Broadcasts(client.broadcastId, poll.read)
      ensures PollHeard(client.broadcastId, old(State()), in_, poll, client.primaryEcu)
      ensures State() == PollTurn(cfg, old(State()), in_).0
      ensures calls == old(calls) + PollTurn(cfg, old(State()), in_).1
      ensures store.data == AfterCalls(old(store.data), PollTurn(cfg, old(State()), in_).1)
    {
      hide Poll, StateOf, Replied, Best, Broadcasts, RequestFrame;
      ghost var ready := State();
      var pollSeen, answer, answerAt, lost;
      pollSeen, answer, answerAt, lost, poll := PollOnce(nowAt);
      var at := client.channel.now;
      if lost {
        at := TellLink(false);
        in_ := Input(nowAt, discoverySeen, found, linkAt, pollSeen, answer, answerAt, at, at, at, at, at);
        PollSame(ready, in_);
        AfterOne(old(store.data), SetLink(false, at));
        return;
      }
      var checkAt := client.channel.ReadClock();
      var sampledAt, publishAt, rearmAt := checkAt, checkAt, checkAt;
      if Ms(checkAt) >= nextPublish {
        sampledAt := client.channel.ReadClock();
        AfterOne(store.data, Publish(StateOf(cfg, State(), Ms(sampledAt)), sampledAt, client.channel.now));
        publishAt := PublishState(sampledAt);
        AfterOne(old(store.data), calls[|calls| - 1]);
        rearmAt := client.channel.ReadClock();
        nextPublish := Ms(rearmAt) + 50;
      }
      in_ := Input(nowAt, discoverySeen, found, linkAt, pollSeen, answer, answerAt, at, checkAt, sampledAt, publishAt,
                   rearmAt);
      PollSame(ready, in_);
    }

    /** Until a vehicle is found nothing is asked of it; once it is, one ECU is listened to. */
    predicate Listening()
      reads this, client
    {
      discovered ==> IsResponseId(client.primaryEcu)
    }

    /** A turn whose discovery nobody answered: the link is down, the values are unknown. */
    method GiveUp(nowAt: Nanos, seen: seq<Seen>) returns (ghost in_: Input)
      requires nowAt <= client.channel.now && SeenWithin(seen, nowAt, client.channel.now)
      modifies this`values, this`calls, store, client.channel`now
      ensures in_.discoverySeen == seen && in_.found.None? && in_.answer.None? && in_.nowAt == nowAt
      ensures Clocked(in_, nowAt, client.channel.now)
      ensures State() == old(State()).(values := map[])
      ensures var told := [SetLink(false, in_.linkAt), Publish(StateOf(cfg, State(), Ms(nowAt)), nowAt, in_.publishAt)];
              calls == old(calls) + told && store.data == AfterCalls(old(store.data), told)
    {
      hide StateOf;
      var linkAt := TellLink(false);
      values := map[];
      ghost var st := StateOf(cfg, State(), Ms(nowAt));
      var publishAt := PublishState(nowAt);
      in_ := Input(nowAt, seen, None, linkAt, [], None, linkAt, linkAt, linkAt, linkAt, publishAt, publishAt);
      AfterOne(old(store.data), SetLink(false, linkAt));
      AfterOne(AfterCalls(old(store.data), [SetLink(false, linkAt)]), Publish(st, nowAt, publishAt));
      AfterConcat(old(store.data), [SetLink(false, linkAt)], [Publish(st, nowAt, publishAt)]);
      assert [SetLink(false, linkAt)] + [Publish(st, nowAt, publishAt)] ==
             [SetLink(false, linkAt), Publish(st, nowAt, publishAt)];
    }

    /** One turn of the loop. The returned input records what the clock and the bus did. */
    method RunOnce() returns (ghost in_: Input, ghost t: Traffic)
      requires Listening()
      modifies this, poller, client, client.channel, store
      ensures Listening() && (old(discovered) ==> client.primaryEcu == old(client.primaryEcu))
      ensures Clocked(in_, old(client.channel.now), client.channel.now)
      ensures old(client.channel.pending) == t.walk.read + t.poll.read + client.channel.pending
      ensures client.channel.offered == old(client.channel.offered) + t.walk.asked + t.poll.asked
      ensures t.ecu == client.primaryEcu && Heard(cfg, client.broadcastId, old(State()), in_, t)
      ensures State() == Iterate(cfg, old(State()), in_).0
      ensures calls == old(calls) + Iterate(cfg, old(State()), in_).1
      ensures store.data == AfterCalls(old(store.data), Iterate(cfg, old(State()), in_).1)
    {
      hide Watched, Poll, PollTurn, StateOf, ScheduleUpTo, PollHeard, Advertises, Broadcasts;
      ghost var start := State();
      var nowAt := client.channel.ReadClock();
      if discovered {
        ghost var poll;
        in_, poll := PollAndPublish(nowAt, nowAt, [], None);
        t := Traffic(NOTHING_ASKED, poll, client.primaryEcu);
        assert [] + poll.read == poll.read;
        return;
      }
      var found, seen;
      ghost var walk;
      found, seen, walk := Discover();
      WatchedKeeps(start, seen);
      if found.Some? {
        in_, t := Greet(nowAt, seen, found, start, walk);
      } else {
        in_ := GiveUp(nowAt, seen);
        t := Traffic(walk, NOTHING_ASKED, client.primaryEcu);
        assert walk.read + [] == walk.read;
      }
    }

    /** The rest of a turn that found the vehicle: the link is up, and the vehicle is polled at once. */
    method Greet(nowAt: Nanos, seen: seq<Seen>, found: Option<set<byte>>, ghost start: Session, ghost walk: Exchange)
        returns (ghost in_: Input, ghost t: Traffic)
      requires found.Some? && !discovered && !start.discovered && IsResponseId(client.primaryEcu)
      requires State().(discovered := true) == Rediscovered(cfg, Watched(start, seen), found.value)
      requires nowAt <= client.channel.now && SeenWithin(seen, nowAt, client.channel.now)
      requires Advertises(client.broadcastId, walk, client.primaryEcu, found)
      requires FramesOf(seen) == Broadcasts(client.broadcastId, walk.read)
      modifies this, poller, client`primaryEcu, client.channel, store
      ensures client.primaryEcu == old(client.primaryEcu) && t.ecu == client.primaryEcu
      ensures Clocked(in_, nowAt, client.channel.now)
      ensures t.walk == walk && old(client.channel.pending) == t.poll.read + client.channel.pending
      ensures client.channel.offered == old(client.channel.offered) + t.poll.asked
      ensures Heard(cfg, client.broadcastId, start, in_, t)
      ensures State() == Iterate(cfg, start, in_).0 && calls == old(calls) + Iterate(cfg, start, in_).1
      ensures store.data == AfterCalls(old(store.data), Iterate(cfg, start, in_).1)
    {
      hide Watched, Poll, PollTurn, StateOf, ScheduleUpTo, PollHeard, Advertises, Broadcasts;
      discovered := true;
      var linkAt := TellLink(true);
      AfterOne(old(store.data), SetLink(true, linkAt));
      ghost var ready, poll := State(), NOTHING_ASKED;
      in_, poll := PollAndPublish(nowAt, linkAt, seen, found);
      t := Traffic(walk, poll, client.primaryEcu);
      HeardTogether(cfg, client.broadcastId, start, in_, t);
      AfterConcat(old(store.data), [SetLink(true, linkAt)], PollTurn(cfg, ready, in_).1);
    }

    /** The plugin thread: turn after turn. The run it performs is the session run on the recorded
        inputs, the host heard exactly the calls of that run, and the inputs are what the bus brought. */
    method Run(turns: nat) returns (ghost inputs: seq<Input>, ghost log: seq<Traffic>)
      requires State() == FRESH_SESSION && calls == [] && ValidConfig(cfg) && client.channel.now >= 0
      modifies this, poller, client, client.channel, store
      ensures |inputs| == turns && TimelyBy(inputs, client.channel.now)
      ensures State() == SessionRun(cfg, inputs) && calls == Calls(cfg, inputs)
      ensures AllHeard(cfg, client.broadcastId, inputs, log)
      ensures old(client.channel.pending) == AllRead(log) + client.channel.pending
      ensures client.channel.offered == old(client.channel.offered) + AllAsked(log)
    {
      hide Iterate, SessionRun, Calls, Heard, AllHeard, AllRead, AllAsked, TimelyBy, Clocked;
      inputs, log := [], [];
      EmptyRun(cfg, client.broadcastId, client.channel.now);
      for i := 0 to turns
        invariant |inputs| == i && TimelyBy(inputs, client.channel.now)
        invariant State() == SessionRun(cfg, inputs) && calls == Calls(cfg, inputs)
        invariant AllHeard(cfg, client.broadcastId, inputs, log)
        invariant old(client.channel.pending) == AllRead(log) + client.channel.pending
        invariant client.channel.offered == old(client.channel.offered) + AllAsked(log)
        invariant Listening() && (log != [] ==> log[|log| - 1].ecu == client.primaryEcu)
        invariant log == [] ==> !discovered
      {
        ghost var from, queue := client.channel.now, client.channel.pending;
        ghost var in_, t := RunOnce();
        RunGrows(cfg, inputs, in_);
        TimelyByGrows(inputs, in_, from, client.channel.now);
        HeardGrows(cfg, client.broadcastId, inputs, log, in_, t);
        assert AllRead(log) + queue == AllRead(log) + (t.walk.read + t.poll.read) + client.channel.pending;
        inputs, log := inputs + [in_], log + [t];
      }
    }
  }

  /** Each turn's clock readings are in order and after those of the turn before. */
  predicate Timely(inputs: seq<Input>) {
    && (forall k :: 0 <= k < |inputs| ==>
          inputs[k].nowAt >= 0 && Clocked(inputs[k], inputs[k].nowAt, inputs[k].rearmAt))
    && (forall k :: 0 < k < |inputs| ==> inputs[k - 1].rearmAt <= inputs[k].nowAt)
  }

  predicate TimelyBy(inputs: seq<Input>, now: Nanos) {
    now >= 0 && Timely(inputs) && (inputs != [] ==> inputs[|inputs| - 1].rearmAt <= now)
  }

  lemma EmptyRun(cfg: IceConfig, broadcastId: int, now: Nanos)
    ensures SessionRun(cfg, []) == FRESH_SESSION && Calls(cfg, []) == []
    ensures AllHeard(cfg, broadcastId, [], []) && AllRead([]) == [] && AllAsked([]) == []
    ensures now >= 0 ==> TimelyBy([], now)
  {
  }

  lemma TimelyByGrows(inputs: seq<Input>, in_: Input, from: Nanos, to: Nanos)
    requires TimelyBy(inputs, from) && Clocked(in_, from, to)
    ensures TimelyBy(inputs + [in_], to)
  {
    assert Clocked(in_, in_.nowAt, in_.rearmAt);
    hide Clocked, SeenWithin;
  }

  lemma RunGrows(cfg: IceConfig, inputs: seq<Input>, in_: Input)
    ensures var s := SessionRun(cfg, inputs);
            && SessionRun(cfg, inputs + [in_]) == Iterate(cfg, s, in_).0
            && Calls(cfg, inputs + [in_]) == Calls(cfg, inputs) + Iterate(cfg, s, in_).1
  {
    hide Iterate;
    assert (inputs + [in_])[..|inputs|] == inputs;
  }

  lemma HeardGrows(cfg: IceConfig, broadcastId: int, inputs: seq<Input>, log: seq<Traffic>, in_: Input, t: Traffic)
    requires AllHeard(cfg, broadcastId, inputs, log) && Heard(cfg, broadcastId, SessionRun(cfg, inputs), in_, t)
    requires log != [] && SessionRun(cfg, inputs).discovered ==> t.ecu == log[|log| - 1].ecu
    ensures AllHeard(cfg, broadcastId, inputs + [in_], log + [t])
    ensures AllRead(log + [t]) == AllRead(log) + (t.walk.read + t.poll.read)
    ensures AllAsked(log + [t]) == AllAsked(log) + (t.walk.asked + t.poll.asked)
  {
    hide Heard, SessionRun;
    assert (log + [t])[..|log|] == log;
    assert (inputs + [in_])[..|inputs|] == inputs;
    forall k | 0 <= k < |inputs|
      ensures (inputs + [in_])[..k] == inputs[..k]
    {
    }
  }

  /** A turn that rediscovers and then polls heard what both parts heard. */
  lemma HeardTogether(cfg: IceConfig, broadcastId: int, s: Session, in_: Input, t: Traffic)
    requires !s.discovered && in_.found.Some? && IsResponseId(t.ecu)
    requires Advertises(broadcastId, t.walk, t.ecu, in_.found)
    requires PollHeard(broadcastId, Ready(cfg, s, in_).value, in_, t.poll, t.ecu)
    requires FramesOf(in_.discoverySeen) == Broadcasts(broadcastId, t.walk.read)
    requires FramesOf(in_.pollSeen) == Broadcasts(broadcastId, t.poll.read)
    ensures Heard(cfg, broadcastId, s, in_, t)
  {
    hide PollHeard, Advertises, Broadcasts;
    BroadcastsConcat(broadcastId, t.walk.read, t.poll.read);
    assert FramesOf(in_.discoverySeen + in_.pollSeen) == FramesOf(in_.discoverySeen) + FramesOf(in_.pollSeen);
  }

  lemma WalkedEcu(broadcastId: int, parts: seq<seq<CanFrame>>, ecu: nat, answers: seq<seq<byte>>)
    requires Walked(broadcastId, parts, ecu, answers) && answers != []
    ensures IsResponseId(ecu)
  {
  }

  /** Only four of a turn's inputs matter to its request. */
  function PollInput(nowAt: Nanos, seen: seq<Seen>, answer: Option<Response>, answerAt: Nanos): Input {
    Input(nowAt, [], None, 0, seen, answer, answerAt, 0, 0, 0, 0, 0)
  }

  lemma PollSame(s: Session, in_: Input)
    ensures Poll(s, in_) == Poll(s, PollInput(in_.nowAt, in_.pollSeen, in_.answer, in_.answerAt))
  {
  }

  /** What a sequence of host calls leaves in the store. */
  function AfterCalls(d: Snapshot, calls: seq<HostCall>): Snapshot {
    if calls == [] then d else AfterCall(AfterCalls(d, calls[..|calls| - 1]), calls[|calls| - 1])
  }

  function AfterCall(d: Snapshot, c: HostCall): Snapshot {
    match c
    case SetLink(present, _) => Linked(d, present)
    case Publish(s, _, at) => Published(d, s, at)
  }

  lemma AfterOne(d: Snapshot, c: HostCall)
    ensures AfterCalls(d, [c]) == AfterCall(d, c)
  {
    assert [c][..0] == [];
  }

  lemma {:induction false} AfterConcat(d: Snapshot, a: seq<HostCall>, b: seq<HostCall>)
    ensures AfterCalls(d, a + b) == AfterCalls(AfterCalls(d, a), b)
  {
    if b == [] {
      assert a + b == a;
    } else {
      assert (a + b)[..|a + b| - 1] == a + b[..|b| - 1];
      AfterConcat(d, a, b[..|b| - 1]);
    }
  }

  lemma SelectedScheduled(items: seq<Item>, now: int)
    ensures var b := Best(items, now, |items|); b.Some? ==> Scheduled(items, items[b.value].pid)
  {
  }

  lemma RequestedStays(s: Session, pid: byte, now: int)
    requires Scheduled(s.items, pid)
    ensures Scheduled(Requested(s.items, pid, now), pid)
  {
    FindUnique(Requested(s.items, pid, now), pid, Find(s.items, pid));
  }

  lemma {:induction false} ItemsUnwatched(s: Session, seen: seq<Seen>)
    ensures Watched(s, seen).items == s.items
  {
    if seen != [] { ItemsUnwatched(s, seen[..|seen| - 1]); }
  }
}
