/** Whole receptions: any packets, in any order, any number of times. */
module GroupTheorems {
  import opened Words
  import opened Arith
  import opened Finite
  import opened GroupLayout
  import opened GroupReceivers
  import opened GroupReassembly

  datatype Arrival = Arrival(n: nat, wave: u32, packet: seq<byte>)

  /** The receiver after the arrivals and the status each one had; None once it would have panicked. */
  function Feed(r: Receiver, c: Cipher, arrivals: seq<Arrival>): Option<(Receiver, seq<Status>)>
    decreases |arrivals|
  {
    if arrivals == [] then Some((r, [])) else
    var a := arrivals[|arrivals| - 1];
    match Feed(r, c, arrivals[..|arrivals| - 1])
    case None => None
    case Some((r', statuses)) =>
      match r'.Received(c, a.n, a.wave, a.packet)
      case None => None
      case Some((r'', status)) => Some((r'', statuses + [status]))
  }

  predicate Below(ns: seq<nat>, bound: nat)
  {
    forall k :: 0 <= k < |ns| ==> ns[k] < bound
  }

  /** The arrivals of packets the sender made: the wave goes in the header as a u32. */
  function Honest(width: nat, ps: seq<(nat, seq<byte>)>, ns: seq<nat>): seq<Arrival>
    requires width >= 1 && Below(ns, |ps|)
  {
    seq(|ns|, (k: int) requires 0 <= k < |ns| => HonestPacket(width, ps, ns[k]))
  }

  /** All packets of wave i are in. */
  ghost predicate WaveIn(width: nat, needed: nat, got: set<nat>, i: nat)
    requires width >= 1
  {
    forall n: nat :: n < needed && n / width == i ==> n in got
  }

  /**
   What the arrival of packet n reports when `got` are in: a repetition, the completion of its wave, that
   of the group if nothing else is missing, or neither.
   */
  ghost function StatusFor(width: nat, needed: nat, got: set<nat>, n: nat): Status
    requires width >= 1
  {
    if n in got then AlreadyReceived
    else if !WaveIn(width, needed, got + {n}, n / width) then InsertSuccess
    else if got + {n} == Range(needed) then GroupComplete(n / width)
    else WaveComplete(n / width)
  }

  ghost predicate Reports(width: nat, needed: nat, ns: seq<nat>, statuses: seq<Status>)
    requires width >= 1
  {
    |statuses| == |ns| && forall k :: 0 <= k < |ns| ==> statuses[k] == StatusFor(width, needed, Elements(ns[..k]), ns[k])
  }

  /** What comes of one more arrival of packet n. */
  ghost predicate Expected(r: Receiver, c: Cipher, waves: seq<seq<byte>>, got: set<nat>, n: nat, out: Option<(Receiver, Status)>)
  {
    && out.Some? && Tracks(out.value.0, c, waves, got + {n}) && out.value.0.cfg == r.cfg && r.cfg.maxPacketsPerWave >= 1
    && out.value.1 == StatusFor(r.cfg.maxPacketsPerWave, r.cfg.packetsNeeded, got, n)
  }

  /** A wave is gathered exactly when all its numbers are in. */
  lemma GatheredExactly(cfg: Config, waves: seq<seq<byte>>, got: set<nat>, i: nat)
    requires Describes(cfg, waves) && i < |waves|
    ensures cfg.maxPacketsPerWave >= 1
    ensures Gathered(cfg, got, i, waves[i]) == Range(PacketCount(|waves[i]|))
            <==> WaveIn(cfg.maxPacketsPerWave, cfg.packetsNeeded, got, i)
  {
    var width, count := cfg.maxPacketsPerWave, PacketCount(|waves[i]|);
    if Gathered(cfg, got, i, waves[i]) == Range(count) {
      forall n: nat | n < cfg.packetsNeeded && n / width == i
        ensures n in got
      {
        Located(waves, width, n);
        assert n % width in Range(count);
        assert n % width in Gathered(cfg, got, i, waves[i]);
      }
    }
    if WaveIn(width, cfg.packetsNeeded, got, i) {
      forall j | j in Range(count)
        ensures i * width + j in got
      {
        PlaceInWave(cfg, waves, i, j);
      }
      GatheredAll(cfg, got, i, waves[i]);
    }
  }

  lemma PlaceInWave(cfg: Config, waves: seq<seq<byte>>, i: nat, j: nat)
    requires Describes(cfg, waves) && i < |waves| && j < PacketCount(|waves[i]|)
    ensures cfg.maxPacketsPerWave >= 1
    ensures var n := i * cfg.maxPacketsPerWave + j; n < cfg.packetsNeeded && n / cfg.maxPacketsPerWave == i
  {
    Numbered(cfg, waves, i, j);
    DivUnique(i * cfg.maxPacketsPerWave + j, cfg.maxPacketsPerWave, i, j);
  }

  lemma CompletesExactly(r: Receiver, waves: seq<seq<byte>>, got: set<nat>, n: nat, i: nat, j: nat)
    requires Describes(r.cfg, waves) && i < |waves| && j < PacketCount(|waves[i]|)
    requires n == i * r.cfg.maxPacketsPerWave + j
    ensures r.cfg.maxPacketsPerWave >= 1 && n / r.cfg.maxPacketsPerWave == i
    ensures Completes(r, got, i, j, waves[i]) <==> WaveIn(r.cfg.maxPacketsPerWave, r.cfg.packetsNeeded, got + {n}, i)
  {
    PlaceInWave(r.cfg, waves, i, j);
    DescribesFit(r.cfg, waves);
    assert Fits(r.cfg, waves[i]);
    GatheredGrows(r.cfg, got, n, i, j, i, waves[i]);
    GatheredExactly(r.cfg, waves, got + {n}, i);
  }

  lemma HonestArrival(r: Receiver, c: Cipher, waves: seq<seq<byte>>, got: set<nat>, n: nat, i: nat, j: nat)
    requires Correct(c) && Tracks(r, c, waves, got) && i < |waves| && j < PacketCount(|waves[i]|)
    requires n == i * r.cfg.maxPacketsPerWave + j && j * MAX_PAYLOAD < |c.encrypt(i, waves[i])|
    ensures Expected(r, c, waves, got, n, r.Received(c, n, i, Slot(c.encrypt(i, waves[i]), j)))
  {
    if n in got {
      assert got + {n} == got;
      assert Notes(r, got);
    } else {
      CompletesExactly(r, waves, got, n, i, j);
      FirstArrival(r, c, waves, got, n, i, j);
      EmptyExactly(r.Received(c, n, i, Slot(c.encrypt(i, waves[i]), j)).value.0, c, waves, got + {n});
    }
  }

  function HonestPacket(width: nat, ps: seq<(nat, seq<byte>)>, n: nat): Arrival
    requires width >= 1 && n < |ps|
  {
    Arrival(ps[n].0, (n / width) % TWO32, ps[n].1)
  }

  /** The packets of the waves, in the width the configuration names. */
  function Sent(cfg: Config, c: Cipher, waves: seq<seq<byte>>): seq<(nat, seq<byte>)>
  {
    GroupPackets(c, cfg.maxPacketsPerWave, waves, |waves|)
  }

  lemma HeaderFits(wave: nat)
    requires wave < TWO32
    ensures wave % TWO32 == wave
  {
  }

  lemma PacketSent(c: Cipher, width: nat, waves: seq<seq<byte>>, n: nat) returns (i: nat, j: nat)
    requires Correct(c) && Shaped(waves, width) && |waves| <= TWO32 && n < |GroupPackets(c, width, waves, |waves|)|
    ensures i < |waves| && j < PacketCount(|waves[i]|) && n == i * width + j
    ensures var cipher := c.encrypt(i, waves[i]);
            && j * MAX_PAYLOAD < |cipher|
            && HonestPacket(width, GroupPackets(c, width, waves, |waves|), n) == Arrival(n, i, Slot(cipher, j))
  {
    i, j := EmittedIs(c, width, waves, n);
    HeaderFits(i);
  }

  lemma HonestStep(r: Receiver, c: Cipher, waves: seq<seq<byte>>, got: set<nat>, n: nat)
    requires Correct(c) && Tracks(r, c, waves, got) && n < |Sent(r.cfg, c, waves)|
    ensures var a := HonestPacket(r.cfg.maxPacketsPerWave, Sent(r.cfg, c, waves), n);
            Expected(r, c, waves, got, n, r.Received(c, a.n, a.wave, a.packet))
  {
    var i, j := PacketSent(c, r.cfg.maxPacketsPerWave, waves, n);
    HonestArrival(r, c, waves, got, n, i, j);
  }

  lemma {:induction false} FeedOn(r: Receiver, c: Cipher, arrivals: seq<Arrival>, a: Arrival)
    requires Feed(r, c, arrivals).Some?
    requires Feed(r, c, arrivals).value.0.Received(c, a.n, a.wave, a.packet).Some?
    ensures var (r', statuses) := Feed(r, c, arrivals).value;
            var (r'', status) := r'.Received(c, a.n, a.wave, a.packet).value;
            Feed(r, c, arrivals + [a]) == Some((r'', statuses + [status]))
  {
    assert (arrivals + [a])[..|arrivals|] == arrivals;
  }

  /** The outcome of the arrivals ns. */
  ghost predicate Ran(cfg: Config, c: Cipher, waves: seq<seq<byte>>, ns: seq<nat>, out: Option<(Receiver, seq<Status>)>)
  {
    && out.Some? && Tracks(out.value.0, c, waves, Elements(ns)) && out.value.0.cfg == cfg
    && cfg.maxPacketsPerWave >= 1 && Reports(cfg.maxPacketsPerWave, cfg.packetsNeeded, ns, out.value.1)
  }

  lemma {:induction false} RanOn(cfg: Config, c: Cipher, waves: seq<seq<byte>>, front: seq<nat>, n: nat, arrivals: seq<Arrival>, a: Arrival)
    requires var out := Feed(Fresh(cfg), c, arrivals);
             && Ran(cfg, c, waves, front, out)
             && Expected(out.value.0, c, waves, Elements(front), n, out.value.0.Received(c, a.n, a.wave, a.packet))
    ensures Ran(cfg, c, waves, front + [n], Feed(Fresh(cfg), c, arrivals + [a]))
  {
    FeedOn(Fresh(cfg), c, arrivals, a);
    assert Elements(front + [n]) == Elements(front) + {n};
    ReportsOn(cfg.maxPacketsPerWave, cfg.packetsNeeded, front, n, Feed(Fresh(cfg), c, arrivals).value.1);
  }

  lemma HonestSplits(width: nat, ps: seq<(nat, seq<byte>)>, front: seq<nat>, n: nat)
    requires width >= 1 && Below(front + [n], |ps|)
    ensures Below(front, |ps|) && n < |ps|
    ensures Honest(width, ps, front + [n]) == Honest(width, ps, front) + [HonestPacket(width, ps, n)]
  {
    assert forall k :: 0 <= k < |front| ==> front[k] == (front + [n])[k];
    assert (front + [n])[|front|] == n;
  }

  lemma {:induction false} RanNothing(cfg: Config, c: Cipher, waves: seq<seq<byte>>)
    requires Correct(c) && Describes(cfg, waves)
    ensures Ran(cfg, c, waves, [], Feed(Fresh(cfg), c, []))
  {
    FreshTracks(cfg, c, waves);
    assert Elements([]) == {};
  }

  lemma {:induction false} HonestRun(cfg: Config, c: Cipher, waves: seq<seq<byte>>, ns: seq<nat>)
    requires Correct(c) && Describes(cfg, waves) && Below(ns, |Sent(cfg, c, waves)|)
    ensures Ran(cfg, c, waves, ns, Feed(Fresh(cfg), c, Honest(cfg.maxPacketsPerWave, Sent(cfg, c, waves), ns)))
    decreases |ns|
  {
    if ns == [] {
      RanNothing(cfg, c, waves);
    } else {
      var width, ps := cfg.maxPacketsPerWave, Sent(cfg, c, waves);
      var front, n := ns[..|ns| - 1], ns[|ns| - 1];
      assert front + [n] == ns;
      HonestSplits(width, ps, front, n);
      var arrivals := Honest(width, ps, front);
      HonestRun(cfg, c, waves, front);
      HonestStep(Feed(Fresh(cfg), c, arrivals).value.0, c, waves, Elements(front), n);
      RanOn(cfg, c, waves, front, n, arrivals, HonestPacket(width, ps, n));
    }
  }

  lemma ReportsOn(width: nat, needed: nat, front: seq<nat>, n: nat, statuses: seq<Status>)
    requires width >= 1 && Reports(width, needed, front, statuses)
    ensures Reports(width, needed, front + [n], statuses + [StatusFor(width, needed, Elements(front), n)])
  {
    var ns := front + [n];
    forall k | 0 <= k < |ns|
      ensures ns[..k] == front[..k]
    {
    }
    assert front[..|front|] == front;
  }

  // ---- Groups whose last wave is not whole ----

  /** Chunk i of the text is at i * size. */
  lemma {:induction false} ChunkPlace(text: seq<byte>, size: nat, i: nat)
    requires size > 0 && i < |Chunks(text, size)|
    ensures var chunk := Chunks(text, size)[i];
            i * size + |chunk| <= |text| && |chunk| <= size && text[i * size..i * size + |chunk|] == chunk
  {
    ChunkCount(text, size);
    DivCeilBounds(|text|, size);
    ProductMonotone(i, |Chunks(text, size)| - 1, size);
    ChunkAt(text, size, i);
  }

  lemma DescribesGroup(plain: seq<byte>, width: nat, groupId: nat)
    requires plain != [] && width >= 1 && |Waves(plain, width)| <= TWO32 && |plain| % PlainPerWave(width) != 0
    ensures Metadata(|plain|, width, groupId).Some?
    ensures Describes(Metadata(|plain|, width, groupId).value, Waves(plain, width))
  {
    ConfigDescribes(plain, width, groupId);
    forall i | 0 <= i < |Waves(plain, width)|
      ensures var m := PlainPerWave(width); |Waves(plain, width)[i]| <= m && i * m + |Waves(plain, width)[i]| <= |plain|
    {
      ChunkPlace(plain, PlainPerWave(width), i);
    }
  }

  lemma PlaceOf(text: seq<byte>, size: nat, t: nat) returns (i: nat)
    requires size > 0 && t < |text|
    ensures i < |Chunks(text, size)| && i * size <= t < i * size + |Chunks(text, size)[i]|
  {
    i := t / size;
    assert t == i * size + t % size;
    ChunkAt(text, size, i);
  }

  lemma {:induction false} SlabIsPlain(slab: seq<byte>, plain: seq<byte>, size: nat)
    requires size > 0 && |slab| == |plain|
    requires forall i :: 0 <= i < |Chunks(plain, size)| ==>
               var chunk := Chunks(plain, size)[i];
               i * size + |chunk| <= |slab| && slab[i * size..i * size + |chunk|] == chunk
    ensures slab == plain
  {
    forall t | 0 <= t < |plain|
      ensures slab[t] == plain[t]
    {
      var i := PlaceOf(plain, size, t);
      ChunkPlace(plain, size, i);
      var chunk, at := Chunks(plain, size)[i], i * size;
      assert slab[at..at + |chunk|][t - at] == plain[at..at + |chunk|][t - at];
    }
  }

  /** With no store left the slab is the plaintext. */
  lemma CompleteSlab(r: Receiver, c: Cipher, plain: seq<byte>, width: nat, got: set<nat>)
    requires width >= 1 && Tracks(r, c, Waves(plain, width), got) && r.stores == map[]
    requires |r.slab| == |plain| && r.cfg.maxPlaintextWave == PlainPerWave(width)
    ensures r.slab == plain
  {
    var waves, m := Waves(plain, width), PlainPerWave(width);
    forall i | 0 <= i < |waves|
      ensures i * m + |waves[i]| <= |r.slab| && r.slab[i * m..i * m + |waves[i]|] == waves[i]
    {
      StoreGone(r, c, waves, got, i);
      assert WaveHolds(r, c, waves[i], i, Gathered(r.cfg, got, i, waves[i]));
    }
    SlabIsPlain(r.slab, plain, m);
  }

  /** The reception of the numbered packets of `plain`, by a receiver told the sender's configuration. */
  function Reception(c: Cipher, plain: seq<byte>, width: nat, groupId: nat, ns: seq<nat>): Option<(Receiver, seq<Status>)>
    requires plain != [] && width >= 1
    requires Below(ns, |GroupPackets(ForGroup(c, groupId), width, Waves(plain, width), |Waves(plain, width)|)|)
  {
    var ps := GroupPackets(ForGroup(c, groupId), width, Waves(plain, width), |Waves(plain, width)|);
    Feed(Fresh(Metadata(|plain|, width, groupId).value), ForGroup(c, groupId), Honest(width, ps, ns))
  }

  /**
   Whatever the order and the repetitions, no arrival goes wrong, each reports what `StatusFor` says, and
   with all packets in the slab is the plaintext.
   */
  lemma {:induction false} Reassembles(c: Cipher, plain: seq<byte>, width: nat, groupId: nat, ns: seq<nat>)
    requires Correct(c) && plain != [] && width >= 1 && |Waves(plain, width)| <= TWO32
    requires |plain| % PlainPerWave(width) != 0
    requires Below(ns, |GroupPackets(ForGroup(c, groupId), width, Waves(plain, width), |Waves(plain, width)|)|)
    ensures var out := Reception(c, plain, width, groupId, ns);
            var needed := Metadata(|plain|, width, groupId).value.packetsNeeded;
            && out.Some? && Reports(width, needed, ns, out.value.1)
            && (Elements(ns) == Range(needed) ==> out.value.0.slab == plain)
  {
    var cfg, waves := Metadata(|plain|, width, groupId).value, Waves(plain, width);
    var cg := ForGroup(c, groupId);
    ForGroupCorrect(c, groupId);
    DescribesGroup(plain, width, groupId);
    HonestRun(cfg, cg, waves, ns);
    var r := Reception(c, plain, width, groupId, ns).value.0;
    EmptyExactly(r, cg, waves, Elements(ns));
    if Elements(ns) == Range(cfg.packetsNeeded) {
      CompleteSlab(r, cg, plain, width, Elements(ns));
    }
  }

  // ---- Groups whose last wave is whole ----

  /** The last wave waits for no packets, so none can complete it, and has room for one. */
  ghost predicate Stuck(r: Receiver)
  {
    && r.cfg.waveCount >= 1
    && var last := r.cfg.waveCount - 1;
       last in r.stores && r.stores[last].packetsInWave == 0 && |r.stores[last].buffer| == r.cfg.lastPayload
  }

  lemma StuckStays(r: Receiver, c: Cipher, n: nat, wave: nat, packet: seq<byte>)
    requires Stuck(r) && r.Received(c, n, wave, packet).Some?
    ensures var (r', status) := r.Received(c, n, wave, packet).value; Stuck(r') && !status.GroupComplete? && r'.cfg == r.cfg
  {
    if n < |r.packetsSeen| && !r.packetsSeen[n] && wave in r.stores && wave != r.cfg.waveCount - 1 {
      assert r.cfg.waveCount - 1 in r.stores - {wave};
    }
  }

  lemma StuckFromTheStart(length: nat, width: nat, groupId: nat)
    requires length > 0 && width >= 1 && length % PlainPerWave(width) == 0
    ensures Stuck(Fresh(Metadata(length, width, groupId).value))
  {
    var m := PlainPerWave(width);
    if length < m { DivUnique(length, m, 0, length); } else { DivStep(length, m); }
    assert DivCeil(0, MAX_PAYLOAD) == 0;
  }

  /** No packets at all, forged or sent, complete a group whose length is a multiple of a wave's. */
  lemma {:induction false} WholeGroupNeverCompletes(c: Cipher, length: nat, width: nat, groupId: nat, arrivals: seq<Arrival>)
    requires length > 0 && width >= 1 && length % PlainPerWave(width) == 0
    ensures var out := Feed(Fresh(Metadata(length, width, groupId).value), c, arrivals);
            out.Some? ==> Stuck(out.value.0) && out.value.0.cfg == Metadata(length, width, groupId).value
                          && |out.value.1| == |arrivals|
                          && forall k :: 0 <= k < |arrivals| ==> !out.value.1[k].GroupComplete?
    decreases |arrivals|
  {
    var cfg := Metadata(length, width, groupId).value;
    if arrivals == [] {
      StuckFromTheStart(length, width, groupId);
    } else {
      var front, a := arrivals[..|arrivals| - 1], arrivals[|arrivals| - 1];
      WholeGroupNeverCompletes(c, length, width, groupId, front);
      var out := Feed(Fresh(cfg), c, front);
      if out.Some? && out.value.0.Received(c, a.n, a.wave, a.packet).Some? {
        StuckStays(out.value.0, c, a.n, a.wave, a.packet);
      }
    }
  }

  /**
   The store of a whole last wave has room for one packet: after any packets, another of that wave takes the
   receiver out of the buffer, which panics, unless it is the wave's first or its last.
   */
  lemma {:induction false} WholeLastWaveOverflows(c: Cipher, length: nat, width: nat, groupId: nat, arrivals: seq<Arrival>,
                                                  n: nat, packet: seq<byte>)
    requires length > 0 && width >= 1 && length % PlainPerWave(width) == 0 && |packet| == MAX_PAYLOAD
    requires var cfg := Metadata(length, width, groupId).value;
             var out := Feed(Fresh(cfg), c, arrivals);
             && (cfg.waveCount - 1) * width <= n < cfg.waveCount * width
             && out.Some? && n < |out.value.0.packetsSeen| && !out.value.0.packetsSeen[n]
    ensures var cfg := Metadata(length, width, groupId).value;
            var r := Feed(Fresh(cfg), c, arrivals).value.0;
            cfg.waveCount >= 1 && (r.Received(c, n, cfg.waveCount - 1, packet).None? <==> 0 < n % width < width - 1)
  {
    var cfg := Metadata(length, width, groupId).value;
    var r := Feed(Fresh(cfg), c, arrivals).value.0;
    WholeGroupNeverCompletes(c, length, width, groupId, arrivals);
    WholeSizes(length, width, groupId);
    ProductStep(cfg.waveCount - 1, width);
    var j := n - (cfg.waveCount - 1) * width;
    DivUnique(n, width, cfg.waveCount - 1, j);
    OneRoomOnly(r, c, n, j, packet);
  }

  lemma WholeSizes(length: nat, width: nat, groupId: nat)
    requires length > 0 && width >= 1 && length % PlainPerWave(width) == 0
    ensures var cfg := Metadata(length, width, groupId).value;
            cfg.waveCount >= 1 && cfg.packetsNeeded == cfg.waveCount * width && cfg.lastPayload == MAX_PAYLOAD
  {
    var m := PlainPerWave(width);
    if length < m { DivUnique(length, m, 0, length); } else { DivStep(length, m); }
    assert DivCeil(0, MAX_PAYLOAD) == 0;
  }

  lemma OneRoomOnly(r: Receiver, c: Cipher, n: nat, j: nat, packet: seq<byte>)
    requires Stuck(r) && r.cfg.lastPayload == r.cfg.maxPayload == MAX_PAYLOAD == |packet| && n < |r.packetsSeen| && !r.packetsSeen[n]
    requires j < r.cfg.maxPacketsPerWave && n % r.cfg.maxPacketsPerWave == j
    requires n == r.cfg.packetsNeeded - 1 <==> j == r.cfg.maxPacketsPerWave - 1
    ensures r.Received(c, n, r.cfg.waveCount - 1, packet).None? <==> 0 < j < r.cfg.maxPacketsPerWave - 1
  {
    InsertedExactly(r.cfg, r.stores[r.cfg.waveCount - 1], n, packet);
  }

  /** Some arrival reported that the group was complete, and the slab is the plaintext. */
  ghost predicate Recovered(out: Option<(Receiver, seq<Status>)>, plain: seq<byte>)
  {
    out.Some? && out.value.0.slab == plain && exists k :: 0 <= k < |out.value.1| && out.value.1[k].GroupComplete?
  }

  /** Once every packet has arrived, the plaintext is recovered exactly when the last wave is not whole. */
  lemma {:induction false} RecoveredExactly(c: Cipher, plain: seq<byte>, width: nat, groupId: nat, ns: seq<nat>)
    requires Correct(c) && plain != [] && width >= 1 && |Waves(plain, width)| <= TWO32
    requires Below(ns, |GroupPackets(ForGroup(c, groupId), width, Waves(plain, width), |Waves(plain, width)|)|)
    requires Elements(ns) == Range(|GroupPackets(ForGroup(c, groupId), width, Waves(plain, width), |Waves(plain, width)|)|)
    ensures Recovered(Reception(c, plain, width, groupId, ns), plain) <==> |plain| % PlainPerWave(width) != 0
  {
    var cg, waves := ForGroup(c, groupId), Waves(plain, width);
    if |plain| % PlainPerWave(width) == 0 {
      WholeGroupNeverCompletes(cg, |plain|, width, groupId, Honest(width, GroupPackets(cg, width, waves, |waves|), ns));
    } else {
      ForGroupCorrect(c, groupId);
      PacketsCoverGroup(cg, plain, width, groupId);
      Reassembles(c, plain, width, groupId, ns);
      var needed := Metadata(|plain|, width, groupId).value.packetsNeeded;
      ConfigDescribes(plain, width, groupId);
      var k := FirstCover(ns, needed);
      CoverCompletes(width, needed, ns, k);
    }
  }

  lemma CoverCompletes(width: nat, needed: nat, ns: seq<nat>, k: nat)
    requires width >= 1 && k < |ns| && ns[k] !in ns[..k] && Elements(ns[..k + 1]) == Range(needed)
    ensures StatusFor(width, needed, Elements(ns[..k]), ns[k]).GroupComplete?
  {
    assert ns[..k + 1] == ns[..k] + [ns[k]];
    assert Elements(ns[..k]) + {ns[k]} == Range(needed);
  }

  /** The arrival that brings the last missing packet. */
  lemma {:induction false} FirstCover(ns: seq<nat>, needed: nat) returns (k: nat)
    requires Elements(ns) == Range(needed) && needed > 0
    ensures k < |ns| && ns[k] !in ns[..k] && Elements(ns[..k + 1]) == Range(needed)
    decreases |ns|
  {
    assert 0 in Range(needed);
    var front, n := ns[..|ns| - 1], ns[|ns| - 1];
    assert Elements(ns) == Elements(front) + {n};
    if n in front {
      assert Elements(front) == Elements(ns);
      k := FirstCover(front, needed);
      assert front[..k] == ns[..k] && front[..k + 1] == ns[..k + 1];
    } else {
      k := |ns| - 1;
      assert ns[..k + 1] == ns;
    }
  }
}
