/** Discovery is correct against honest ECUs: the set it reports is what the first responder
    supports, cut off at the first block that the chain does not reach or nobody answered. */
module Discovery {
  import opened Contract
  import opened J1979
  import opened J1979Client
  import opened Options

  /** The payload is the bitmap of the PIDs in `s` for one block. */
  ghost predicate Encodes(s: set<byte>, base: byte, payload: seq<byte>)
    requires |payload| >= 4 && base <= 0xC0
  {
    forall n :: 1 <= n <= 32 ==> (BitmapBit(payload, n) <==> (base as int + n) as byte in s)
  }

  /** Every ECU on the bus answers bitmap requests with full bitmaps of its own set. Whatever else carries
      identifiers outside the response range is not looked at. */
  ghost predicate HonestEcus(frames: seq<CanFrame>, supports: map<nat, set<byte>>) {
    forall j, k: nat, payload: seq<byte> :: 0 <= j < |frames| && k < 7 && |payload| >= 4 && IsResponseId(frames[j].id)
      && ParseSingleFrame(frames[j].data, frames[j].dlc) == Some(Response(0x41, 0x20 * k, payload))
      ==> frames[j].id in supports && Encodes(supports[frames[j].id], 0x20 * k, payload)
  }

  /** Bitmap PIDs 0x20, 0x40, ... up to block b are all supported, so the chain reaches block b. */
  predicate Reaches(s: set<byte>, b: nat) {
    b < 7 && forall c :: 1 <= c <= b ==> (0x20 * c) as byte in s
  }

  /** What a full walk finds: the non-bitmap PIDs of the blocks the chain reaches, all at most 0xDF. */
  predicate Discoverable(s: set<byte>, p: byte) {
    p in s && p % 0x20 != 0 && Reaches(s, p as int / 0x20)
  }

  /** The two tests of a bitmap's last bit agree. */
  lemma LastBit(payload: seq<byte>)
    requires |payload| >= 4
    ensures NextBlockAdvertised(payload) <==> BitmapBit(payload, 32)
  {
  }

  lemma {:induction false} WalkReaches(s: set<byte>, answers: seq<seq<byte>>, b: nat)
    requires IsWalk(answers) && b < |answers|
    requires forall k :: 0 <= k < |answers| ==> Encodes(s, 0x20 * k, answers[k])
    ensures Reaches(s, b)
  {
    if b > 0 {
      WalkReaches(s, answers, b - 1);
      LastBit(answers[b - 1]);
      assert (0x20 * (b - 1) + 32) as byte in s;
    }
  }

  /** Given the bitmaps of an honest ECU, discovery reports exactly the discoverable PIDs of the
      answered blocks; if the walk ended by itself these are all, and if it did not the chain goes on. */
  lemma DiscoveryIsExact(s: set<byte>, answers: seq<seq<byte>>)
    requires IsWalk(answers) && answers != []
    requires forall k :: 0 <= k < |answers| ==> Encodes(s, 0x20 * k, answers[k])
    ensures forall p: byte :: p in Advertised(answers) <==> Discoverable(s, p) && p as int / 0x20 < |answers|
    ensures Finished(answers) <==> !Reaches(s, |answers|)
    ensures Finished(answers) ==> forall p: byte :: p in Advertised(answers) <==> Discoverable(s, p)
    ensures forall p: byte :: p in Advertised(answers) ==> p <= 0xDF
  {
    forall p: byte
      ensures p in Advertised(answers) <==> Discoverable(s, p) && p as int / 0x20 < |answers|
    {
      AdvertisedWhen(s, answers, p);
    }
    if |answers| < 7 {
      var last := |answers| - 1;
      WalkReaches(s, answers, last);
      LastBit(answers[last]);
      assert Encodes(s, 0x20 * last, answers[last]);
      assert BitmapBit(answers[last], 32) <==> (0x20 * last + 32) as byte in s;
      assert 0x20 * last + 32 == 0x20 * |answers|;
    }
  }

  lemma AdvertisedWhen(s: set<byte>, answers: seq<seq<byte>>, p: byte)
    requires IsWalk(answers) && forall k :: 0 <= k < |answers| ==> Encodes(s, 0x20 * k, answers[k])
    ensures p in Advertised(answers) <==> Discoverable(s, p) && p as int / 0x20 < |answers|
  {
    var b, n := p as int / 0x20, p as int % 0x20;
    if b < |answers| && n != 0 {
      WalkReaches(s, answers, b);
      assert Encodes(s, 0x20 * b, answers[b]);
      assert BitmapBit(answers[b], n) <==> (0x20 * b + n) as byte in s;
    }
  }

  /** Answers of one honest ECU are bitmaps of what it supports. */
  lemma HonestAnswers(frames: seq<CanFrame>, supports: map<nat, set<byte>>, ecu: nat, answers: seq<seq<byte>>)
    requires HonestEcus(frames, supports) && IsResponseId(ecu) && AnsweredBy(frames, ecu, answers)
    requires answers != [] && IsWalk(answers)
    ensures ecu in supports && forall k :: 0 <= k < |answers| ==> Encodes(supports[ecu], 0x20 * k, answers[k])
  {
    hide Encodes, ParseSingleFrame, NextBlockAdvertised;
    forall k | 0 <= k < |answers|
      ensures ecu in supports && Encodes(supports[ecu], 0x20 * k, answers[k])
    {
      assert FromEcu(frames, ecu, 0x20 * k, answers[k]);
    }
    assert FromEcu(frames, ecu, 0, answers[0]);
  }

  lemma HonestPart(before: seq<CanFrame>, frames: seq<CanFrame>, after: seq<CanFrame>, supports: map<nat, set<byte>>)
    requires HonestEcus(before + frames + after, supports)
    ensures HonestEcus(frames, supports)
  {
    hide Encodes, ParseSingleFrame;
    var all := before + frames + after;
    forall j, k: nat, payload: seq<byte> | 0 <= j < |frames| && k < 7 && |payload| >= 4 && IsResponseId(frames[j].id)
      && ParseSingleFrame(frames[j].data, frames[j].dlc) == Some(Response(0x41, 0x20 * k, payload))
      ensures frames[j].id in supports && Encodes(supports[frames[j].id], 0x20 * k, payload)
    {
      assert all[|before| + j] == frames[j];
    }
  }

  /** A walk answered by an honest ECU: the PIDs advertised are its discoverable ones, all of them, or - when
      the chain goes on - those before the block for which the ECU sent no bitmap. */
  lemma HonestWalk(broadcastId: int, parts: seq<seq<CanFrame>>, ecu: nat, answers: seq<seq<byte>>,
                   supports: map<nat, set<byte>>)
    requires HonestEcus(Flat(parts), supports) && Walked(broadcastId, parts, ecu, answers) && answers != []
    ensures IsWalk(answers) && ecu in supports
    ensures forall p: byte :: p in Advertised(answers) <==>
              Discoverable(supports[ecu], p) && p as int / 0x20 < |answers|
    ensures if Reaches(supports[ecu], |answers|)
            then |parts| == |answers| + 1 && NoBitmap(broadcastId, ecu, 0x20 * |answers|, parts[|answers|])
            else |parts| == |answers| && forall p: byte :: p in Advertised(answers) <==> Discoverable(supports[ecu], p)
  {
    hide Advertised, BitmapBit, Discoverable, NextBlockAdvertised, HonestEcus, NoBitmap, BlockAnswered, Encodes;
    WalkIsAnswered(broadcastId, parts, ecu, answers);
    HonestAnswers(Flat(parts), supports, ecu, answers);
    DiscoveryIsExact(supports[ecu], answers);
  }

  /** The same, run against the bus: several ECUs may answer and answers to earlier requests may
      still be queued, yet the reported set is that of the first ECU to answer and never a mixture. */
  method DiscoverHonest(client: Client, ghost supports: map<nat, set<byte>>)
      returns (ok: bool, ghost parts: seq<seq<CanFrame>>, ghost blocks: nat)
    requires HonestEcus(client.channel.pending, supports)
    modifies client, client.channel
    ensures old(client.channel.pending) == Flat(parts) + client.channel.pending
    ensures |parts| <= 7 && client.channel.offered == old(client.channel.offered) + BlockRequests(|parts|)
    ensures !ok ==> client.supported == old(client.supported)
    ensures !ok ==> |parts| == 1 && NoBitmap(client.broadcastId, 0, 0, parts[0])
    ensures ok ==> client.primaryEcu in supports && 0 < blocks <= |parts|
    ensures ok ==> parts[0] != [] && FirstAnswer(client.broadcastId, 0, 0, parts[0], |parts[0]| - 1)
                   && parts[0][|parts[0]| - 1].id == client.primaryEcu
    ensures ok ==> forall p: byte :: p in client.supported <==>
                     Discoverable(supports[client.primaryEcu], p) && p as int / 0x20 < blocks
    ensures ok ==>
              if Reaches(supports[client.primaryEcu], blocks)
              then |parts| == blocks + 1
                   && NoBitmap(client.broadcastId, client.primaryEcu, 0x20 * blocks, parts[blocks])
              else forall p: byte :: p in client.supported <==> Discoverable(supports[client.primaryEcu], p)
  {
    hide Advertised, Discoverable, NextBlockAdvertised, HonestEcus, Sunk, NoBitmap, Flat, Reaches, BlockRequests;
    var seen;
    ghost var answers;
    ok, seen, parts, answers := client.Discover();
    blocks := |answers|;
    if ok {
      assert [] + Flat(parts) + client.channel.pending == old(client.channel.pending);
      HonestPart([], Flat(parts), client.channel.pending, supports);
      HonestWalk(client.broadcastId, parts, client.primaryEcu, answers, supports);
      assert BlockAnswered(client.broadcastId, 0, 0, parts[..blocks][0], client.primaryEcu, answers[0]);
    }
  }
}
