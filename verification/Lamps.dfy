/** Telltales: from a broadcast on the vehicle bus to the lamp bytes of a contract frame. */
module Lamps {
  import opened BitMasks
  import opened Contract
  import opened EndToEnd
  import opened J1979
  import opened J1979Client
  import opened Mapping
  import opened Obd2Ice
  import opened Options
  import opened Poller
  import opened Publisher
  import opened PublisherRuns
  import opened Session

  /** The telltale frames the session was handed, over a whole run. */
  function SeenLog(cfg: IceConfig, inputs: seq<Input>): seq<Seen> {
    if inputs == [] then []
    else
      var early := inputs[..|inputs| - 1];
      SeenLog(cfg, early) + SeenIn(SessionRun(cfg, early), inputs[|inputs| - 1])
  }

  /** They are exactly the broadcasts read from the bus, in order. */
  lemma {:induction false} SeenLogIsBroadcasts(cfg: IceConfig, broadcastId: int, inputs: seq<Input>, log: seq<Traffic>)
    requires AllHeard(cfg, broadcastId, inputs, log)
    ensures FramesOf(SeenLog(cfg, inputs)) == Broadcasts(broadcastId, AllRead(log))
  {
    hide SessionRun, PollHeard, Advertises, SeenIn, Broadcasts;
    if inputs == [] {
      assert Broadcasts(broadcastId, []) == [] by { NoBroadcasts(broadcastId); }
    } else {
      var n := |inputs| - 1;
      HeardUpTo(cfg, broadcastId, inputs, log, n);
      SeenLogIsBroadcasts(cfg, broadcastId, inputs[..n], log[..n]);
      assert Heard(cfg, broadcastId, SessionRun(cfg, inputs[..n]), inputs[n], log[n]);
      BroadcastsConcat(broadcastId, AllRead(log[..n]), log[n].walk.read + log[n].poll.read);
      var seen := SeenIn(SessionRun(cfg, inputs[..n]), inputs[n]);
      assert FramesOf(SeenLog(cfg, inputs[..n]) + seen) == FramesOf(SeenLog(cfg, inputs[..n])) + FramesOf(seen);
    }
  }

  lemma NoBroadcasts(id: int)
    ensures Broadcasts(id, []) == []
  {
  }

  /** The last frame that carries lamps at all. */
  function LastLamps(seen: seq<Seen>): Option<Seen> {
    if seen == [] then None
    else if seen[|seen| - 1].frame.dlc >= 2 then Some(seen[|seen| - 1])
    else LastLamps(seen[..|seen| - 1])
  }

  function LampWord(f: CanFrame): Mask {
    f.data[0] as int + 0x100 * f.data[1] as int
    + if f.dlc >= 4 then 0x1_0000 * f.data[2] as int + 0x100_0000 * f.data[3] as int else 0
  }

  lemma {:induction false} WatchedLamps(s: Session, seen: seq<Seen>)
    ensures var w := Watched(s, seen);
            if LastLamps(seen).None? then w.lamps == s.lamps && w.lampsSeenMs == s.lampsSeenMs
            else w.lamps == LampWord(LastLamps(seen).value.frame) && w.lampsSeenMs == Ms(LastLamps(seen).value.at)
  {
    if seen != [] {
      WatchedLamps(s, seen[..|seen| - 1]);
    }
  }

  lemma {:induction false} LastLampsConcat(a: seq<Seen>, b: seq<Seen>)
    ensures LastLamps(a + b) == if LastLamps(b).Some? then LastLamps(b) else LastLamps(a)
  {
    if b == [] {
      assert a + b == a;
    } else {
      assert (a + b)[..|a + b| - 1] == a + b[..|b| - 1];
      LastLampsConcat(a, b[..|b| - 1]);
    }
  }

  lemma PolledLamps(s: Session, in_: Input)
    ensures var p, w := Poll(s, in_).0, Watched(s, in_.pollSeen);
            p.lamps == w.lamps && p.lampsSeenMs == w.lampsSeenMs
  {
    hide Due, ReadValue, Requested, Answered, Removed, Plausible;
    WatchedLamps(s, in_.pollSeen);
    if Due(s, in_).Some? {
      var pid := Due(s, in_).value;
      WatchedLamps(s.(items := Requested(s.items, pid, Ms(in_.nowAt)), unanswered := s.unanswered + 1), in_.pollSeen);
    }
  }

  lemma TurnLamps(cfg: IceConfig, s: Session, in_: Input)
    ensures var s', w := Iterate(cfg, s, in_).0, Watched(s, SeenIn(s, in_));
            s'.lamps == w.lamps && s'.lampsSeenMs == w.lampsSeenMs
  {
    hide Poll, Watched, StateOf;
    if s.discovered {
      PolledLamps(s, in_);
    } else if in_.found.Some? {
      var w := Watched(s, in_.discoverySeen);
      var ready := Rediscovered(cfg, w, in_.found.value);
      PolledLamps(ready, in_);
      WatchedLamps(ready, in_.pollSeen);
      WatchedLamps(s, in_.discoverySeen);
      WatchedLamps(s, in_.discoverySeen + in_.pollSeen);
      LastLampsConcat(in_.discoverySeen, in_.pollSeen);
    }
  }

  /** The session holds the lamps of the last telltale frame it was handed, with the time it was read. */
  lemma {:induction false} LampsFollowSeen(cfg: IceConfig, inputs: seq<Input>)
    ensures var s, x := SessionRun(cfg, inputs), LastLamps(SeenLog(cfg, inputs));
            if x.None? then s.lamps == 0 && s.lampsSeenMs == -1
            else s.lamps == LampWord(x.value.frame) && s.lampsSeenMs == Ms(x.value.at)
  {
    hide Iterate, SeenIn, LampWord;
    if inputs != [] {
      var early, last := inputs[..|inputs| - 1], inputs[|inputs| - 1];
      LampsFollowSeen(cfg, early);
      var s := SessionRun(cfg, early);
      TurnLamps(cfg, s, last);
      WatchedLamps(s, SeenIn(s, last));
      LastLampsConcat(SeenLog(cfg, early), SeenIn(s, last));
    }
  }

  lemma {:induction false} LastLampsMember(seen: seq<Seen>)
    requires LastLamps(seen).Some?
    ensures LastLamps(seen).value in seen && LastLamps(seen).value.frame.dlc >= 2
  {
    if seen[|seen| - 1].frame.dlc < 2 {
      LastLampsMember(seen[..|seen| - 1]);
    }
  }

  lemma {:induction false} SeenTimes(cfg: IceConfig, inputs: seq<Input>, x: Seen)
    requires Timely(inputs) && x in SeenLog(cfg, inputs)
    ensures inputs != [] && 0 <= x.at <= inputs[|inputs| - 1].publishAt
  {
    hide Iterate, SessionRun;
    var n := |inputs| - 1;
    if x in SeenLog(cfg, inputs[..n]) {
      SeenTimes(cfg, inputs[..n], x);
    }
  }

  const DARK: Frame := [0, 0, 0, 0, 0, 0, 0, 0]

  /** The contract bytes of a lamp frame: 16 lamps from a short frame, the 20 assigned ones from a full one. */
  function LampBytes(f: CanFrame): Frame {
    [f.data[0], f.data[1], if f.dlc >= 4 then f.data[2] % 16 else 0, 0, 0, 0, 0, 0]
  }

  lemma WordBytes(f: CanFrame)
    ensures TelltalesBytes(Telltales(LampWord(f) % TT_LIMIT)) == LampBytes(f)
  {
    var d := f.data;
    LowBytes(d[0], d[1], d[2], d[3]);
    LowBytes(d[0], d[1], 0, 0);
  }

  lemma LowBytes(a: byte, b: byte, c: byte, e: byte)
    ensures var w := a as int + 0x100 * b as int + (0x1_0000 * c as int + 0x100_0000 * e as int);
            Le32((w % TT_LIMIT) % TT_LIMIT) == [a, b, c % 16, 0]
  {
    hide Le32;
    var w := a as int + 0x100 * b as int + (0x1_0000 * c as int + 0x100_0000 * e as int);
    var low := a as int + 0x100 * b as int + 0x1_0000 * (c as int % 16);
    LowPart(w, low, c as int / 16 + 16 * e as int);
    LowDigits(a, b, c as int % 16);
  }

  lemma LowPart(w: nat, low: nat, q: nat)
    requires low < TT_LIMIT && w == low + TT_LIMIT * q
    ensures w % TT_LIMIT == low && low % TT_LIMIT == low
  {
  }

  lemma LowDigits(a: byte, b: byte, c: byte)
    requires c < 16
    ensures Le32(a as int + 0x100 * b as int + 0x1_0000 * c as int) == [a, b, c, 0]
  {
    var low := a as int + 0x100 * b as int + 0x1_0000 * c as int;
    assert low / 0x100 == b as int + 0x100 * c as int;
  }

  lemma TimelyUpTo(inputs: seq<Input>, n: nat)
    requires Timely(inputs) && n <= |inputs|
    ensures Timely(inputs[..n])
  {
    hide Clocked;
  }

  /** The lamps in the state a run publishes at the given time. */
  lemma PublishedLamps(cfg: IceConfig, inputs: seq<Input>, now: int)
    requires Timely(inputs)
    ensures var x := LastLamps(SeenLog(cfg, inputs));
            StateOf(cfg, SessionRun(cfg, inputs), now).lamps ==
            if x.None? || now - Ms(x.value.at) > 500 then 0 else LampWord(x.value.frame)
    ensures var x := LastLamps(SeenLog(cfg, inputs));
            x.Some? ==> inputs != [] && x.value.at <= inputs[|inputs| - 1].publishAt
  {
    hide SessionRun, CapableMask, ValidMask, Value, Current, LampWord, SeenLog, Clocked;
    LampsFollowSeen(cfg, inputs);
    if LastLamps(SeenLog(cfg, inputs)).Some? {
      LastLampsMember(SeenLog(cfg, inputs));
      SeenTimes(cfg, inputs, LastLamps(SeenLog(cfg, inputs)).value);
    }
  }

  /** What a telltale frame says, over every run and interleaving. Without live data it is dark. Otherwise it
      carries, in its own byte order, the last lamp frame handed to the session up to the turn of the last
      publish, provided that frame was at most half a second old when the state was sampled; a lamp that
      shines is thus based on a frame younger than the plugin timeout plus half a second (plus the stamping
      delay and one tick of the millisecond clock). */
  lemma LampsReachTheWire(cfg: Config, ice: IceConfig, inputs: seq<Input>, w: World, es: seq<Event>, t: nat,
                          e: Emission)
      returns (m: nat, k: nat)
    requires Timely(inputs)
    requires ValidSlots(w.pub.slots) && w.pub.armed && w.store == NOTHING_YET
    requires Interleaves(es, Calls(ice, inputs)) && SentBy(cfg, w, es, t, e) && e.id == ID_TELLTALES
    ensures t < |es|
    ensures !Derive(Run(cfg, w, es[..t]).store, e.at, cfg.timeout).live ==> e.data == DARK
    ensures Derive(Run(cfg, w, es[..t]).store, e.at, cfg.timeout).live ==>
              && ServedFrom(ice, inputs, es, t, m, k) && k < |inputs| && m < |Calls(ice, inputs)|
              && var c, x := Calls(ice, inputs)[m], LastLamps(SeenLog(ice, inputs[..k + 1]));
                 && c.Publish?
                 && e.data == (if x.None? || Ms(c.sampledAt) - Ms(x.value.at) > 500 then DARK
                               else LampBytes(x.value.frame))
                 && (e.data != DARK ==> e.at - x.value.at < cfg.timeout + (c.at - c.sampledAt) + 501 * MS)
                 && (e.data != DARK && ClockSorted(es) ==> x.value.at <= e.at)
  {
    hide Run, SentBy, SessionRun, Calls, Iterate, ServedFrom, Interleaves, SeenLog, LampBytes, TelltalesBytes, Clocked;
    hide MotionFrom, EDriveFrom, EnergyFrom, TripFrom, ThermalFrom, AssistFrom, StateOf, DARK, LastLamps, LampWord;
    BuiltAtItsTick(cfg, w, es, t, e);
    var p := Run(cfg, w, es[..t]);
    DarkBytes();
    m, k := 0, 0;
    if Derive(p.store, e.at, cfg.timeout).live {
      m, k := PublishBehind(cfg, ice, inputs, w, es, t);
      ServedTurn(ice, inputs, es, t, m, k);
      var c, upTo := Calls(ice, inputs)[m], inputs[..k + 1];
      assert upTo[..k] == inputs[..k];
      RunOfTurn(ice, inputs, k);
      PublishedAtTurnEnd(ice, SessionRun(ice, inputs[..k]), inputs[k], c);
      TimelyUpTo(inputs, k + 1);
      PublishedLamps(ice, upTo, Ms(c.sampledAt));
      var x := LastLamps(SeenLog(ice, upTo));
      if x.Some? {
        WordBytes(x.value.frame);
      }
    }
  }

  lemma DarkBytes()
    ensures TelltalesBytes(Telltales(0)) == DARK
  {
  }
}
