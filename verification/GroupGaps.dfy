/** Which waves get_missing_waves reports, after any packets whatsoever. */
module GroupGaps {
  import opened Words
  import opened Arith
  import opened Finite
  import opened GroupLayout
  import opened GroupReceivers
  import opened GroupReassembly
  import opened GroupTheorems

  /** How the wave flags and the two cursors stand to the open stores. */
  ghost predicate Flags(r: Receiver)
  {
    && |r.wavesSeen| == r.cfg.waveCount && -1 <= r.lowest <= r.last < r.cfg.waveCount
    && (forall i :: i in r.stores ==> i < r.cfg.waveCount && !r.wavesSeen[i])
    && (forall i :: 0 <= i <= r.lowest ==> r.wavesSeen[i])
    && (r.last >= 0 ==> r.wavesSeen[r.last])
    && (r.stores != map[] ==> forall i :: 0 <= i < r.cfg.waveCount && i !in r.stores ==> r.wavesSeen[i])
    && (r.stores != map[] && 0 !in r.stores ==> r.lowest >= 0)
    && (r.stores == map[] ==> forall i, j :: 0 <= i < j < r.cfg.waveCount ==> r.wavesSeen[i] || r.wavesSeen[j])
  }

  lemma FinishKeepsFlags(r: Receiver, wave: nat, plain: seq<byte>)
    requires Flags(r) && wave in r.stores && r.Finished(wave, plain).Some?
    ensures Flags(r.Finished(wave, plain).value.0)
  {
    var r' := r.Finished(wave, plain).value.0;
    assert r.stores != map[];
    assert forall i :: i in r'.stores <==> i in r.stores && i != wave;
  }

  lemma InsertKeepsFlags(r: Receiver, n: nat, wave: nat, st: Store)
    requires Flags(r) && n < |r.packetsSeen| && wave in r.stores
    ensures Flags(r.(packetsSeen := r.packetsSeen[n := true], stores := r.stores[wave := st]))
  {
    var stores := r.stores[wave := st];
    assert wave in stores && r.stores != map[] && stores != map[];
    assert forall i :: i in stores <==> i in r.stores;
  }

  lemma PacketKeepsFlags(r: Receiver, c: Cipher, n: nat, wave: nat, packet: seq<byte>)
    requires Flags(r) && r.Received(c, n, wave, packet).Some?
    ensures Flags(r.Received(c, n, wave, packet).value.0)
  {
    if n < |r.packetsSeen| && !r.packetsSeen[n] && wave in r.stores {
      var st := Insert(r.cfg, r.stores[wave], n, packet).value;
      var r' := r.(packetsSeen := r.packetsSeen[n := true], stores := r.stores[wave := st]);
      InsertKeepsFlags(r, n, wave, st);
      if st.packetsReceived == st.packetsInWave {
        var plain := c.decrypt(wave, st.buffer[..st.bytesWritten]);
        if plain.Some? { FinishKeepsFlags(r', wave, plain.value); }
      }
    }
  }

  lemma FreshFlags(cfg: Config)
    ensures Flags(Fresh(cfg))
  {
    var r := Fresh(cfg);
    assert forall i: nat :: i in r.stores <==> i < cfg.waveCount;
    if cfg.waveCount > 0 { assert 0 in r.stores; }
  }

  lemma {:induction false} FlagsHold(cfg: Config, c: Cipher, arrivals: seq<Arrival>)
    ensures var out := Feed(Fresh(cfg), c, arrivals); out.Some? ==> Flags(out.value.0)
    decreases |arrivals|
  {
    if arrivals == [] {
      FreshFlags(cfg);
    } else {
      var a := arrivals[|arrivals| - 1];
      FlagsHold(cfg, c, arrivals[..|arrivals| - 1]);
      var out := Feed(Fresh(cfg), c, arrivals[..|arrivals| - 1]);
      if out.Some? && out.value.0.Received(c, a.n, a.wave, a.packet).Some? {
        PacketKeepsFlags(out.value.0, c, a.n, a.wave, a.packet);
      }
    }
  }

  lemma {:induction false} GapsExactly(flags: seq<bool>, lo: nat, hi: nat, i: nat)
    requires lo <= hi <= |flags|
    ensures i in Gaps(flags, lo, hi) <==> lo <= i < hi && !flags[i]
    decreases hi
  {
    if lo < hi { GapsExactly(flags, lo, hi - 1, i); }
  }

  /** Wave i lies before the last completed wave and has not been put together. */
  ghost predicate Outstanding(r: Receiver, i: nat)
  {
    i < r.last && i in r.stores
  }

  ghost predicate Lists(r: Receiver, missing: Option<seq<nat>>)
  {
    match missing
    case None => forall i :: i in r.stores ==> !Outstanding(r, i)
    case Some(waves) => waves != [] && forall i: nat :: i in waves <==> Outstanding(r, i)
  }

  /**
   In any state packets can lead to: the slice is in bounds. While the group is open the answer lists
   exactly the outstanding waves, or else wave 0 itself is outstanding and nothing is reported. When it
   is complete nothing is outstanding, and the answer may still name one wave, the one that came last.
   */
  lemma {:induction false} MissingWavesExactly(cfg: Config, c: Cipher, arrivals: seq<Arrival>)
    requires Feed(Fresh(cfg), c, arrivals).Some?
    ensures var r := Feed(Fresh(cfg), c, arrivals).value.0;
            && (r.lowest >= 0 ==> r.lowest <= r.last <= |r.wavesSeen|)
            && (r.stores != map[] ==> (Lists(r, r.Missing()) <==> !Outstanding(r, 0)))
            && (Outstanding(r, 0) ==> r.Missing() == None)
            && (r.stores == map[] && r.Missing().Some? ==> forall i, j :: i in r.Missing().value && j in r.Missing().value ==> i == j)
  {
    FlagsHold(cfg, c, arrivals);
    MissingByFlags(Feed(Fresh(cfg), c, arrivals).value.0);
  }

  lemma MissingByFlags(r: Receiver)
    requires Flags(r)
    ensures r.stores != map[] ==> (Lists(r, r.Missing()) <==> !Outstanding(r, 0))
    ensures Outstanding(r, 0) ==> r.Missing() == None
    ensures r.stores == map[] && r.Missing().Some? ==> forall i, j :: i in r.Missing().value && j in r.Missing().value ==> i == j
  {
    if r.lowest >= 0 {
      var gaps := Gaps(r.wavesSeen, r.lowest, r.last);
      forall i: nat
        ensures i in gaps <==> r.lowest <= i < r.last && !r.wavesSeen[i]
      {
        GapsExactly(r.wavesSeen, r.lowest, r.last, i);
      }
      assert r.stores != map[] ==> forall i: nat :: i in gaps <==> Outstanding(r, i);
      if gaps == [] {
        assert r.stores != map[] ==> forall i :: i in r.stores ==> !Outstanding(r, i);
      }
    }
  }

  // ---- Wave 0 can be outstanding ----

  lemma CompletedIsLast(r: Receiver, c: Cipher, n: nat, wave: nat, packet: seq<byte>)
    requires r.Received(c, n, wave, packet).Some? && r.Received(c, n, wave, packet).value.1.WaveComplete?
    ensures var (r', status) := r.Received(c, n, wave, packet).value; r'.last == status.wave
  {
  }

  lemma {:induction false} FeedOne(r: Receiver, c: Cipher, a: Arrival)
    requires Feed(r, c, [a]).Some?
    ensures var out := r.Received(c, a.n, a.wave, a.packet);
            out.Some? && Feed(r, c, [a]) == Some((out.value.0, [out.value.1]))
  {
    assert [a][..0] == [] && Feed(r, c, []) == Some((r, []));
    var out := r.Received(c, a.n, a.wave, a.packet);
    if out.Some? { assert [] + [out.value.1] == [out.value.1]; }
  }

  /** Three waves of one packet each. */
  lemma ThreeWaves(plain: seq<byte>, groupId: nat)
    requires |plain| == 2 * PlainPerWave(1) + 1
    ensures |plain| % PlainPerWave(1) != 0 && |Waves(plain, 1)| == 3
    ensures Metadata(|plain|, 1, groupId).value.packetsNeeded == 3
  {
    DivUnique(|plain|, PlainPerWave(1), 2, 1);
    ConfigDescribes(plain, 1, groupId);
    assert DivCeil(1 + CIPHER_OVERHEAD, MAX_PAYLOAD) == 1;
  }

  lemma SecondPacketStatus(got: set<nat>)
    requires got == {}
    ensures StatusFor(1, 3, got, 1) == WaveComplete(1)
  {
    assert got + {1} == {1};
    assert 0 in Range(3) && 0 !in {1};
    forall n: nat | n < 3 && n / 1 == 1
      ensures n in got + {1}
    {
    }
  }

  /** Of three packets in three waves the second alone comes in: wave 0 is outstanding, and nothing is listed. */
  lemma {:induction false} FirstWaveOverlooked(c: Cipher, plain: seq<byte>, groupId: nat)
    requires Correct(c) && |plain| == 2 * PlainPerWave(1) + 1
    ensures |GroupPackets(ForGroup(c, groupId), 1, Waves(plain, 1), |Waves(plain, 1)|)| == 3
    ensures Reception(c, plain, 1, groupId, [1]).Some?
    ensures var r := Reception(c, plain, 1, groupId, [1]).value.0;
            && (r.lowest >= 0 ==> r.lowest <= r.last <= |r.wavesSeen|)
            && Outstanding(r, 0) && r.Missing() == None && !Lists(r, r.Missing())
  {
    var cfg, waves, cg := Metadata(|plain|, 1, groupId).value, Waves(plain, 1), ForGroup(c, groupId);
    var ps := GroupPackets(cg, 1, waves, |waves|);
    ThreeWaves(plain, groupId);
    ForGroupCorrect(c, groupId);
    PacketsCoverGroup(cg, plain, 1, groupId);
    DescribesGroup(plain, 1, groupId);
    var arrivals := Honest(1, ps, [1]);
    assert arrivals == [HonestPacket(1, ps, 1)];
    HonestRun(cfg, cg, waves, [1]);
    SecondPacketStays(cfg, cg, waves, arrivals);
    MissingWavesExactly(cfg, cg, arrivals);
  }

  lemma {:induction false} SecondPacketStays(cfg: Config, c: Cipher, waves: seq<seq<byte>>, arrivals: seq<Arrival>)
    requires |arrivals| == 1 && Ran(cfg, c, waves, [1], Feed(Fresh(cfg), c, arrivals))
    requires cfg.maxPacketsPerWave == 1 && cfg.packetsNeeded == 3
    ensures Outstanding(Feed(Fresh(cfg), c, arrivals).value.0, 0)
  {
    var a := arrivals[0];
    assert arrivals == [a];
    FeedOne(Fresh(cfg), c, a);
    assert [1][..0] == [] && Elements([]) == {};
    SecondPacketStatus(Elements([1][..0]));
    CompletedIsLast(Fresh(cfg), c, a.n, a.wave, a.packet);
    FirstWaveKept(Feed(Fresh(cfg), c, arrivals).value.0, c, waves, Elements([1]));
  }

  lemma FirstWaveKept(r: Receiver, c: Cipher, waves: seq<seq<byte>>, got: set<nat>)
    requires Tracks(r, c, waves, got) && 0 !in got
    ensures 0 in r.stores
  {
    StoreGone(r, c, waves, got, 0);
    assert 0 in Range(PacketCount(|waves[0]|));
    assert 0 !in Gathered(r.cfg, got, 0, waves[0]);
  }
}
