/** The dump tool's counter check, an observer written separately from the publisher: it watches
    byte 2 of each status frame on the bus and counts the places where it does not advance by one. */
module ContractDump {
  import opened Contract
  import opened Publisher
  import opened PublisherRuns

  function Counters(frames: seq<Emission>): seq<byte> {
    seq(|Sent(frames, ID_STATUS)|, k requires 0 <= k < |Sent(frames, ID_STATUS)| => Sent(frames, ID_STATUS)[k].data[2])
  }

  /** How many neighbouring counters are not consecutive modulo 256. */
  function Breaks(c: seq<byte>): nat {
    if |c| < 2 then 0
    else Breaks(c[..|c| - 1]) + (if c[|c| - 1] != Next(c[|c| - 2]) then 1 else 0)
  }

  /** The receive loop of the statistics mode, reduced to its counter bookkeeping. */
  method CountSkips(frames: seq<Emission>) returns (counterSkips: nat)
    ensures counterSkips == Breaks(Counters(frames))
  {
    var lastCounter: int := -1;
    counterSkips := 0;
    var i := 0;
    while i < |frames|
      invariant 0 <= i <= |frames|
      invariant lastCounter ==
                if Counters(frames[..i]) == [] then -1 else Counters(frames[..i])[|Counters(frames[..i])| - 1]
      invariant counterSkips == Breaks(Counters(frames[..i]))
    {
      hide Breaks, Counters;
      CountersGrow(frames, i);
      if frames[i].id == ID_STATUS { BreaksGrow(Counters(frames[..i]), frames[i].data[2]); }
      if frames[i].id == ID_STATUS {
        if lastCounter >= 0 && frames[i].data[2] as int != (lastCounter + 1) % 0x100 {
          counterSkips := counterSkips + 1;
        }
        lastCounter := frames[i].data[2];
      }
      i := i + 1;
    }
    assert frames[..|frames|] == frames;
  }

  lemma BreaksGrow(c: seq<byte>, b: byte)
    ensures Breaks(c + [b]) == Breaks(c) + if c != [] && b != Next(c[|c| - 1]) then 1 else 0
  {
    assert (c + [b])[..|c|] == c;
  }

  lemma CountersGrow(frames: seq<Emission>, i: nat)
    requires i < |frames|
    ensures var before, after := Counters(frames[..i]), Counters(frames[..i + 1]);
            if frames[i].id == ID_STATUS then after == before + [frames[i].data[2]] && after[..|before|] == before
            else after == before
  {
    assert frames[..i + 1][..i] == frames[..i];
  }

  /** The observer reports no skip exactly when every counter is one more than the one before. */
  lemma {:induction false} NoBreaksExactlyWhen(c: seq<byte>)
    ensures Breaks(c) == 0 <==> forall k :: 0 < k < |c| ==> c[k] == Next(c[k - 1])
  {
    if |c| >= 2 {
      var early := c[..|c| - 1];
      NoBreaksExactlyWhen(early);
      assert early[|early| - 1] == c[|c| - 2];
      if forall k :: 0 < k < |early| ==> early[k] == Next(early[k - 1]) {
        forall k | 0 < k < |early| ensures c[k] == Next(c[k - 1]) { assert c[k] == early[k]; }
      } else {
        var k :| 0 < k < |early| && early[k] != Next(early[k - 1]);
        assert c[k] != Next(c[k - 1]);
      }
    }
  }

  /** The counter at place k is not one more, modulo 256, than the one before. */
  predicate BreaksAt(c: seq<byte>, k: int) {
    0 < k < |c| && c[k] as int != (c[k - 1] as int + 1) % 0x100
  }

  function BreakPlaces(c: seq<byte>): set<int> { set k | 0 < k < |c| && BreaksAt(c, k) }

  /** The observer reports how many such places there are. */
  lemma {:induction false} BreaksAreCounted(c: seq<byte>)
    ensures Breaks(c) == |BreakPlaces(c)|
  {
    if |c| >= 2 {
      var early, last := c[..|c| - 1], |c| - 1;
      BreaksAreCounted(early);
      PlacesGrow(c);
    }
  }

  lemma PlacesGrow(c: seq<byte>)
    requires |c| >= 2
    ensures var early, last := c[..|c| - 1], |c| - 1;
            && last !in BreakPlaces(early)
            && BreakPlaces(c) == BreakPlaces(early) + if c[last] != Next(c[last - 1]) then {last} else {}
  {
    var early, last := c[..|c| - 1], |c| - 1;
    forall k: int
      ensures BreaksAt(c, k) <==> BreaksAt(early, k) || (k == last && c[last] != Next(c[last - 1]))
    {
    }
    hide BreaksAt;
  }

  /** On any run of the publisher, suspended or not, the observer reports no skip. */
  lemma PublisherNeverSkips(cfg: Config, w: World, es: seq<Event>)
    requires ValidSlots(w.pub.slots) && w.pub.armed && w.trace == [] && w.pub.counter == 0
    ensures Breaks(Counters(Run(cfg, w, es).trace)) == 0
  {
    hide Run, Sent, Breaks;
    CounterRolls(cfg, w, es);
    var c := Counters(Run(cfg, w, es).trace);
    assert forall k :: 0 <= k < |c| ==> c[k] == k % 0x100;
    hide Counters;
    forall k | 0 < k < |c|
      ensures c[k] == Next(c[k - 1])
    {
      NextOf(k - 1);
    }
    NoBreaksExactlyWhen(c);
  }

  lemma NextOf(k: nat)
    ensures Next(k % 0x100) == (k + 1) % 0x100
  {
  }
}
