/**
 The sending end of a group (citadel_crypt/src/scramble/crypt_splitter.rs, GroupSenderDevice): packets
 leave in sequence, and acknowledged waves are freed and counted.
 */
module GroupSenders {
  import opened Words
  import opened Arith
  import opened GroupLayout

  datatype Sender = Sender(cfg: Config, packetsInRam: map<nat, seq<byte>>, packetsReceived: nat, packetsSent: nat)
  {
    function PacketsInWave(wave: nat): nat
    {
      if wave == cfg.waveCount - 1 then cfg.packetsInLastWave else cfg.maxPacketsPerWave
    }

    /** get_next_packet */
    function Next(): (Sender, Option<seq<byte>>)
      requires packetsSent != cfg.packetsNeeded ==> packetsSent in packetsInRam
    {
      if packetsSent == cfg.packetsNeeded then (this, None)
      else (this.(packetsInRam := packetsInRam - {packetsSent}, packetsSent := packetsSent + 1),
            Some(packetsInRam[packetsSent]))
    }

    /** on_wave_tail_ack_received */
    function Acked(wave: nat): (Sender, bool)
    {
      var offset, count := cfg.maxPacketsPerWave * wave, PacketsInWave(wave);
      var received := packetsReceived + count;
      (this.(packetsInRam := map n | n in packetsInRam && !(offset <= n < offset + count) :: packetsInRam[n],
             packetsReceived := received),
       received == cfg.packetsNeeded)
    }
  }

  class GroupSenderDevice {
    const cfg: Config
    var packetsInRam: map<nat, seq<byte>>
    var packetsReceived: nat
    var packetsSent: nat

    ghost function View(): Sender
      reads this
    {
      Sender(cfg, packetsInRam, packetsReceived, packetsSent)
    }

    constructor (config: Config, packets: map<nat, seq<byte>>)
      ensures View() == Sender(config, packets, 0, 0)
    {
      cfg, packetsInRam, packetsReceived, packetsSent := config, packets, 0, 0;
    }

    method GetNextPacket() returns (packet: Option<seq<byte>>)
      requires packetsSent != cfg.packetsNeeded ==> packetsSent in packetsInRam
      modifies this
      ensures (View(), packet) == old(View().Next())
    {
      if packetsSent == cfg.packetsNeeded {
        return None;
      }
      packet := Some(packetsInRam[packetsSent]);
      packetsInRam := packetsInRam - {packetsSent};
      packetsSent := packetsSent + 1;
    }

    method OnWaveTailAckReceived(wave: u32) returns (complete: bool)
      modifies this
      ensures (View(), complete) == old(View().Acked(wave))
    {
      var offset := cfg.maxPacketsPerWave * wave;
      var count := GetPacketsInWave(wave);
      for n := offset to offset + count
        invariant packetsReceived == old(packetsReceived) && packetsSent == old(packetsSent)
        invariant packetsInRam == map k | k in old(packetsInRam) && !(offset <= k < n) :: old(packetsInRam)[k]
      {
        packetsInRam := packetsInRam - {n};
      }
      packetsReceived := packetsReceived + count;
      complete := packetsReceived == cfg.packetsNeeded;
    }

    method GetPacketsInWave(wave: u32) returns (count: nat)
      ensures count == View().PacketsInWave(wave)
    {
      count := if wave == cfg.waveCount - 1 then cfg.packetsInLastWave else cfg.maxPacketsPerWave;
    }
  }

  // ---- Sending ----

  /** What k calls of get_next_packet return; None once one would have panicked. */
  function Sends(s: Sender, k: nat): Option<(Sender, seq<Option<seq<byte>>>)>
  {
    if k == 0 then Some((s, [])) else
    match Sends(s, k - 1)
    case None => None
    case Some((s', out)) =>
      if s'.packetsSent != s'.cfg.packetsNeeded && s'.packetsSent !in s'.packetsInRam then None
      else var (s'', packet) := s'.Next(); Some((s'', out + [packet]))
  }

  function From(ps: seq<seq<byte>>, k: nat): map<nat, seq<byte>>
  {
    map n: nat | k <= n < |ps| :: ps[n]
  }

  lemma FromDrops(ps: seq<seq<byte>>, k: nat)
    requires k < |ps|
    ensures k in From(ps, k) && From(ps, k)[k] == ps[k] && From(ps, k) - {k} == From(ps, k + 1)
  {
  }

  /** All packets leave once, in sequence, and then there are no more. */
  lemma {:induction false} SendsInSequence(cfg: Config, ps: seq<seq<byte>>, k: nat)
    requires |ps| == cfg.packetsNeeded
    ensures var sent := Min(k, |ps|);
            var out := Sends(Sender(cfg, From(ps, 0), 0, 0), k);
            && out.Some? && out.value.0 == Sender(cfg, From(ps, sent), 0, sent) && |out.value.1| == k
            && forall i :: 0 <= i < k ==> out.value.1[i] == if i < |ps| then Some(ps[i]) else None
  {
    if k > 0 {
      SendsInSequence(cfg, ps, k - 1);
      if k - 1 < |ps| { FromDrops(ps, k - 1); }
    }
  }

  // ---- Acknowledgement of every wave ----

  /** The device after acknowledgements in the order given. */
  function AfterAcks(s: Sender, waves: seq<nat>): Sender
    decreases |waves|
  {
    if waves == [] then s else AfterAcks(s, waves[..|waves| - 1]).Acked(waves[|waves| - 1]).0
  }

  ghost predicate Distinct(waves: seq<nat>, bound: nat)
  {
    && (forall k :: 0 <= k < |waves| ==> waves[k] < bound)
    && (forall k, l :: 0 <= k < l < |waves| ==> waves[k] != waves[l])
  }

  lemma {:induction false} DistinctCount(waves: seq<nat>, bound: nat)
    requires Distinct(waves, bound)
    ensures |waves| <= bound && (bound > 0 && bound - 1 !in waves ==> |waves| <= bound - 1)
    decreases bound
  {
    if waves != [] { assert waves[0] < bound; }
    if bound == 0 {
    } else if bound - 1 in waves {
      var k :| 0 <= k < |waves| && waves[k] == bound - 1;
      DistinctCount(waves[..k] + waves[k + 1..], bound - 1);
    } else {
      DistinctCount(waves, bound - 1);
    }
  }

  /** How often wave w is named. */
  function Mentions(waves: seq<nat>, w: nat): (k: nat)
    ensures k <= |waves|
    decreases |waves|
  {
    if waves == [] then 0 else Mentions(waves[..|waves| - 1], w) + if waves[|waves| - 1] == w then 1 else 0
  }

  /** What k acknowledgements add up to when `lasts` of them name the last wave. */
  function Tally(cfg: Config, k: nat, lasts: nat): nat
    requires lasts <= k
  {
    (k - lasts) * cfg.maxPacketsPerWave + lasts * cfg.packetsInLastWave
  }

  lemma TallyGrows(cfg: Config, k: nat, lasts: nat)
    requires lasts <= k
    ensures Tally(cfg, k + 1, lasts) == Tally(cfg, k, lasts) + cfg.maxPacketsPerWave
    ensures Tally(cfg, k + 1, lasts + 1) == Tally(cfg, k, lasts) + cfg.packetsInLastWave
  {
    ProductStep(k - lasts, cfg.maxPacketsPerWave);
    ProductStep(lasts, cfg.packetsInLastWave);
  }

  /** Each acknowledgement counts in full, also one that comes again: the last wave for the packets it is said to have. */
  lemma {:induction false} AckedPackets(s: Sender, waves: seq<nat>)
    requires s.cfg.waveCount >= 1
    ensures var s' := AfterAcks(s, waves);
            && s'.cfg == s.cfg && s'.packetsSent == s.packetsSent
            && s'.packetsReceived == s.packetsReceived + Tally(s.cfg, |waves|, Mentions(waves, s.cfg.waveCount - 1))
    decreases |waves|
  {
    if waves != [] {
      var front := waves[..|waves| - 1];
      AckedPackets(s, front);
      TallyGrows(s.cfg, |front|, Mentions(front, s.cfg.waveCount - 1));
    }
  }

  /** For acknowledgements of any kind: completion is reported exactly when the tally comes to the packets needed. */
  lemma {:induction false} AcksTally(plain: seq<byte>, width: nat, groupId: nat, ram: map<nat, seq<byte>>, waves: seq<nat>)
    requires plain != [] && width >= 1 && waves != []
    ensures var cfg := Metadata(|plain|, width, groupId).value;
            var s := AfterAcks(Sender(cfg, ram, 0, 0), waves[..|waves| - 1]);
            && cfg.waveCount >= 1
            && (s.Acked(waves[|waves| - 1]).1 <==> Tally(cfg, |waves|, Mentions(waves, cfg.waveCount - 1)) == cfg.packetsNeeded)
  {
    ConfigDescribes(plain, width, groupId);
    AckedPackets(Sender(Metadata(|plain|, width, groupId).value, ram, 0, 0), waves);
  }

  lemma {:induction false} DistinctMentions(waves: seq<nat>, bound: nat, w: nat)
    requires Distinct(waves, bound)
    ensures Mentions(waves, w) == if w in waves then 1 else 0
    decreases |waves|
  {
    if waves != [] {
      var front := waves[..|waves| - 1];
      DistinctMentions(front, bound, w);
      assert waves == front + [waves[|waves| - 1]];
    }
  }

  /** The counts behind it: q whole waves of `width` and a last one of `last`. */
  lemma AckArithmetic(k: nat, count: nat, width: nat, last: nat, needed: nat, hasLast: bool, whole: bool)
    requires count >= 1 && width >= 1 && k <= count && (!hasLast ==> k <= count - 1) && (hasLast ==> k >= 1)
    requires whole ==> last == 0 && needed == count * width
    requires !whole ==> 1 <= last <= width && needed == (count - 1) * width + last
    ensures (if hasLast then (k - 1) * width + last else k * width) == needed <==> !whole && k == count
  {
    ProductStep(count - 1, width);
    if hasLast {
      ProductMonotone(k - 1, count - 1, width);
      if k < count {
        ProductMonotone(k, count - 1, width);
        ProductStep(k - 1, width);
      }
    } else {
      ProductMonotone(k, count - 1, width);
    }
  }

  lemma TallyOnce(cfg: Config, k: nat, hasLast: bool)
    requires k >= 1
    ensures Tally(cfg, k, if hasLast then 1 else 0)
            == if hasLast then (k - 1) * cfg.maxPacketsPerWave + cfg.packetsInLastWave else k * cfg.maxPacketsPerWave
  {
  }

  /** Acknowledged once each, in any order, the waves report completion with the last of them or never. */
  lemma {:induction false} AcksCompleteExactly(plain: seq<byte>, width: nat, groupId: nat, ram: map<nat, seq<byte>>, waves: seq<nat>)
    requires plain != [] && width >= 1
    requires Distinct(waves, Metadata(|plain|, width, groupId).value.waveCount) && waves != []
    ensures var cfg := Metadata(|plain|, width, groupId).value;
            var s := AfterAcks(Sender(cfg, ram, 0, 0), waves[..|waves| - 1]);
            s.Acked(waves[|waves| - 1]).1 <==> |plain| % PlainPerWave(width) != 0 && |waves| == cfg.waveCount
  {
    var cfg := Metadata(|plain|, width, groupId).value;
    var m, count := PlainPerWave(width), cfg.waveCount;
    ConfigDescribes(plain, width, groupId);
    DistinctCount(waves, count);
    DistinctMentions(waves, count, count - 1);
    AcksTally(plain, width, groupId, ram, waves);
    if |plain| % m == 0 { WholeConfig(plain, width, groupId); }
    TallyOnce(cfg, |waves|, count - 1 in waves);
    AckArithmetic(|waves|, count, width, cfg.packetsInLastWave, cfg.packetsNeeded, count - 1 in waves, |plain| % m == 0);
  }

  lemma RepeatArithmetic(k: nat, count: nat, width: nat, last: nat, needed: nat, whole: bool)
    requires count >= 1 && width >= 1
    requires whole ==> needed == count * width
    requires !whole ==> 1 <= last <= width && needed == (count - 1) * width + last
    ensures k * width == needed <==> k == count && (whole || last == width)
  {
    ProductStep(count - 1, width);
    if k < count { ProductMonotone(k, count - 1, width); }
    if k > count { ProductMonotone(count + 1, k, width); ProductStep(count, width); }
  }

  /**
   Acknowledgements of other waves than the last, repeated at will, are taken for completion when there
   are as many as waves and the last wave counts like the others, or is whole and counts nothing.
   */
  lemma {:induction false} AcksWithoutTheLast(plain: seq<byte>, width: nat, groupId: nat, ram: map<nat, seq<byte>>, waves: seq<nat>)
    requires plain != [] && width >= 1 && waves != []
    requires Mentions(waves, Metadata(|plain|, width, groupId).value.waveCount - 1) == 0
    ensures var cfg := Metadata(|plain|, width, groupId).value;
            var s := AfterAcks(Sender(cfg, ram, 0, 0), waves[..|waves| - 1]);
            s.Acked(waves[|waves| - 1]).1
            <==> |waves| == cfg.waveCount && (|plain| % PlainPerWave(width) == 0 || cfg.packetsInLastWave == width)
  {
    var cfg := Metadata(|plain|, width, groupId).value;
    ConfigDescribes(plain, width, groupId);
    AcksTally(plain, width, groupId, ram, waves);
    if |plain| % PlainPerWave(width) == 0 { WholeConfig(plain, width, groupId); }
    RepeatArithmetic(|waves|, cfg.waveCount, width, cfg.packetsInLastWave, cfg.packetsNeeded, |plain| % PlainPerWave(width) == 0);
  }

  /** Three acknowledgements of wave 0 complete a group of three waves. */
  lemma {:induction false} RepeatedAckCompletes(plain: seq<byte>, groupId: nat, ram: map<nat, seq<byte>>)
    requires |plain| == 2 * PlainPerWave(1) + 1
    ensures var cfg := Metadata(|plain|, 1, groupId).value;
            cfg.waveCount == 3 && AfterAcks(Sender(cfg, ram, 0, 0), [0, 0]).Acked(0).1
  {
    var m := PlainPerWave(1);
    DivUnique(|plain|, m, 2, 1);
    assert DivCeil(1 + CIPHER_OVERHEAD, MAX_PAYLOAD) == 1;
    var waves := [0, 0, 0];
    assert waves[..2] == [0, 0] && [0, 0][..1] == [0] && [0][..0] == [];
    AcksWithoutTheLast(plain, 1, groupId, ram, waves);
  }

  lemma WholeConfig(plain: seq<byte>, width: nat, groupId: nat)
    requires plain != [] && width >= 1 && |plain| % PlainPerWave(width) == 0
    ensures var cfg := Metadata(|plain|, width, groupId).value; cfg.packetsNeeded == cfg.waveCount * width
  {
    var m := PlainPerWave(width);
    if |plain| < m { DivUnique(|plain|, m, 0, |plain|); }
    assert DivCeil(0, MAX_PAYLOAD) == 0;
  }

  ghost predicate Freed(cfg: Config, waves: seq<nat>, n: nat)
  {
    exists w :: w in waves && cfg.maxPacketsPerWave * w <= n < cfg.maxPacketsPerWave * w + Sender(cfg, map[], 0, 0).PacketsInWave(w)
  }

  /** The packets still held are those of no acknowledged wave. */
  lemma {:induction false} HeldAfterAcks(s: Sender, waves: seq<nat>, n: nat)
    ensures AfterAcks(s, waves).cfg == s.cfg
    ensures n in AfterAcks(s, waves).packetsInRam <==> n in s.packetsInRam && !Freed(s.cfg, waves, n)
    decreases |waves|
  {
    if waves != [] {
      var front, w := waves[..|waves| - 1], waves[|waves| - 1];
      HeldAfterAcks(s, front, n);
      assert waves == front + [w];
      assert Freed(s.cfg, waves, n) <==> Freed(s.cfg, front, n) || Freed(s.cfg, [w], n) by {
        assert w in [w] && w in waves;
      }
      assert Freed(s.cfg, [w], n) <==>
             s.cfg.maxPacketsPerWave * w <= n < s.cfg.maxPacketsPerWave * w + s.PacketsInWave(w) by {
        assert w in [w];
      }
    }
  }

  lemma FreedWithWave(cfg: Config, waves: seq<nat>, n: nat, w: nat, j: nat)
    requires w in waves && n == w * cfg.maxPacketsPerWave + j && j < Sender(cfg, map[], 0, 0).PacketsInWave(w)
    ensures Freed(cfg, waves, n)
  {
    assert cfg.maxPacketsPerWave * w == w * cfg.maxPacketsPerWave;
  }

  lemma {:induction false} FreedWithAll(plain: seq<byte>, width: nat, groupId: nat, waves: seq<nat>, n: nat)
    requires plain != [] && width >= 1 && |plain| % PlainPerWave(width) != 0
    requires n < Metadata(|plain|, width, groupId).value.packetsNeeded
    requires forall w: nat :: w < Metadata(|plain|, width, groupId).value.waveCount ==> w in waves
    ensures Freed(Metadata(|plain|, width, groupId).value, waves, n)
  {
    ConfigDescribes(plain, width, groupId);
    Located(Waves(plain, width), width, n);
    FreedWithWave(Metadata(|plain|, width, groupId).value, waves, n, n / width, n % width);
  }

  /** With all waves acknowledged and the last one not whole, nothing is left in memory. */
  lemma {:induction false} NothingHeld(plain: seq<byte>, width: nat, groupId: nat, ram: map<nat, seq<byte>>, waves: seq<nat>)
    requires plain != [] && width >= 1 && |plain| % PlainPerWave(width) != 0
    requires forall n :: n in ram ==> n < Metadata(|plain|, width, groupId).value.packetsNeeded
    requires forall w: nat :: w < Metadata(|plain|, width, groupId).value.waveCount ==> w in waves
    ensures AfterAcks(Sender(Metadata(|plain|, width, groupId).value, ram, 0, 0), waves).packetsInRam == map[]
  {
    var s := Sender(Metadata(|plain|, width, groupId).value, ram, 0, 0);
    forall n: nat
      ensures n !in AfterAcks(s, waves).packetsInRam
    {
      HeldAfterAcks(s, waves, n);
      if n in ram { FreedWithAll(plain, width, groupId, waves, n); }
    }
  }
}
