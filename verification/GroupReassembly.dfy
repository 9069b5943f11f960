/**
 Reassembly of a group from any arrival order, with duplicates: what the receiver's state is after any
 set of packets, that the group completes exactly once and yields the plaintext, and for which lengths.
 */
module GroupReassembly {
  import opened Words
  import opened Arith
  import opened Finite
  import opened GroupLayout
  import opened GroupReceivers

  lemma FullExactly(mine: set<nat>, count: nat)
    requires mine <= Range(count)
    ensures |mine| <= count && (|mine| == count <==> mine == Range(count))
  {
    RangeSize(count);
    SubsetSize(mine, Range(count));
  }

  // ---- One wave's store ----

  /** The bytes of packet j are where they belong. */
  ghost predicate Holds(buffer: seq<byte>, cipher: seq<byte>, j: nat)
    requires |buffer| == |cipher| && j * MAX_PAYLOAD <= |cipher|
  {
    Slot(buffer, j) == Slot(cipher, j)
  }

  /** A ciphertext cut in `count` packets. */
  ghost predicate Cut(cipher: seq<byte>, count: nat)
  {
    count >= 1 && (count - 1) * MAX_PAYLOAD < |cipher| <= count * MAX_PAYLOAD
  }

  /** The store after the packets `mine` of the wave. */
  ghost predicate StoreHolds(st: Store, cipher: seq<byte>, count: nat, mine: set<nat>)
  {
    && Cut(cipher, count) && mine <= Range(count)
    && |st.buffer| == |cipher| && st.packetsInWave == count && st.packetsReceived == |mine|
    && st.bytesWritten == |mine| * MAX_PAYLOAD - (if count - 1 in mine then count * MAX_PAYLOAD - |cipher| else 0)
    && forall j :: j in mine ==> Holds(st.buffer, cipher, j)
  }

  lemma PastedSlot(buffer: seq<byte>, cipher: seq<byte>, j: nat, k: nat)
    requires |buffer| == |cipher| && j * MAX_PAYLOAD <= |cipher| && k * MAX_PAYLOAD <= |cipher|
    ensures var b := Pasted(buffer, j * MAX_PAYLOAD, Slot(cipher, j));
            Slot(b, k) == if j == k then Slot(cipher, j) else Slot(buffer, k)
  {
    var b := Pasted(buffer, j * MAX_PAYLOAD, Slot(cipher, j));
    if j == k {
      assert Slot(b, k) == Slot(cipher, j);
    } else if k < j {
      assert Slot(b, k) == Slot(buffer, k);
    } else {
      assert Slot(b, k) == Slot(buffer, k);
    }
  }

  function Filled(st: Store, cipher: seq<byte>, j: nat): Store
    requires |st.buffer| == |cipher| && j * MAX_PAYLOAD <= |cipher|
  {
    Store(st.packetsReceived + 1, st.packetsInWave, st.bytesWritten + |Slot(cipher, j)|,
          Pasted(st.buffer, j * MAX_PAYLOAD, Slot(cipher, j)))
  }

  lemma SlotLength(cipher: seq<byte>, count: nat, j: nat)
    requires Cut(cipher, count) && j < count
    ensures j * MAX_PAYLOAD < |cipher|
    ensures |Slot(cipher, j)| == MAX_PAYLOAD - if j == count - 1 then count * MAX_PAYLOAD - |cipher| else 0
  {
  }

  lemma FilledHolds(st: Store, cipher: seq<byte>, count: nat, mine: set<nat>, j: nat)
    requires StoreHolds(st, cipher, count, mine) && j < count && j !in mine
    ensures j * MAX_PAYLOAD < |cipher| && StoreHolds(Filled(st, cipher, j), cipher, count, mine + {j})
  {
    var st' := Filled(st, cipher, j);
    SlotLength(cipher, count, j);
    assert |mine + {j}| == |mine| + 1;
    forall k | k in mine + {j}
      ensures Holds(st'.buffer, cipher, k)
    {
      if k != j { assert Holds(st.buffer, cipher, k); }
      PastedSlot(st.buffer, cipher, j, k);
    }
  }

  /** With all packets in, the bytes written are the ciphertext. */
  lemma FullStore(st: Store, cipher: seq<byte>, count: nat)
    requires StoreHolds(st, cipher, count, Range(count))
    ensures st.bytesWritten == |st.buffer| && st.buffer == cipher
  {
    RangeSize(count);
    forall t | 0 <= t < |cipher|
      ensures st.buffer[t] == cipher[t]
    {
      var j, u := t / MAX_PAYLOAD, t % MAX_PAYLOAD;
      assert j in Range(count);
      assert Holds(st.buffer, cipher, j);
      assert Slot(st.buffer, j)[u] == st.buffer[t] && Slot(cipher, j)[u] == cipher[t];
    }
  }

  // ---- All waves ----

  /** A receiver configuration that fits the waves. */
  ghost predicate Describes(cfg: Config, waves: seq<seq<byte>>)
  {
    && 1 <= |waves| == cfg.waveCount <= TWO32 && Shaped(waves, cfg.maxPacketsPerWave) && cfg.maxPayload == MAX_PAYLOAD
    && (forall i :: 0 <= i < |waves| ==>
          |waves[i]| <= cfg.maxPlaintextWave && i * cfg.maxPlaintextWave + |waves[i]| <= cfg.plaintextLength)
    && var last := |waves[|waves| - 1]|;
       && cfg.packetsNeeded == (|waves| - 1) * cfg.maxPacketsPerWave + PacketCount(last)
       && cfg.packetsInLastWave == PacketCount(last) && cfg.lastPayload == LastPayload(last)
  }

  /** The packets of wave i among those that arrived. */
  ghost function Mine(got: set<nat>, width: nat, i: nat, count: nat): set<nat>
  {
    set j | j in Range(count) && i * width + j in got
  }

  ghost predicate Fits(cfg: Config, text: seq<byte>)
  {
    PacketCount(|text|) <= cfg.maxPacketsPerWave && |text| <= cfg.maxPlaintextWave
  }

  ghost function Gathered(cfg: Config, got: set<nat>, i: nat, text: seq<byte>): set<nat>
  {
    Mine(got, cfg.maxPacketsPerWave, i, PacketCount(|text|))
  }

  /** Wave i is out in the slab once all its packets are in, and still gathering before. */
  ghost predicate WaveHolds(r: Receiver, c: Cipher, text: seq<byte>, i: nat, mine: set<nat>)
  {
    var count := PacketCount(|text|);
    var at := i * r.cfg.maxPlaintextWave;
    if mine == Range(count)
    then i !in r.stores && at + |text| <= |r.slab| && r.slab[at..at + |text|] == text
    else i in r.stores && StoreHolds(r.stores[i], c.encrypt(i, text), count, mine)
  }

  ghost predicate AllFit(cfg: Config, waves: seq<seq<byte>>)
  {
    forall i :: 0 <= i < |waves| ==> Fits(cfg, waves[i])
  }

  ghost predicate AllHold(r: Receiver, c: Cipher, waves: seq<seq<byte>>, got: set<nat>)
  {
    forall i :: 0 <= i < |waves| ==> WaveHolds(r, c, waves[i], i, Gathered(r.cfg, got, i, waves[i]))
  }

  ghost predicate Notes(r: Receiver, got: set<nat>)
  {
    && |r.slab| == r.cfg.plaintextLength && |r.packetsSeen| == r.cfg.packetsNeeded && |r.wavesSeen| == r.cfg.waveCount
    && (forall n :: n in got ==> n < |r.packetsSeen|)
    && (forall n :: 0 <= n < |r.packetsSeen| ==> (r.packetsSeen[n] <==> n in got))
    && (forall i :: i in r.stores ==> i < r.cfg.waveCount)
  }

  /** The receiver's whole state, by the set of packets that arrived. */
  ghost predicate Tracks(r: Receiver, c: Cipher, waves: seq<seq<byte>>, got: set<nat>)
  {
    Describes(r.cfg, waves) && Notes(r, got) && AllHold(r, c, waves, got)
  }

  lemma CipherCut(c: Cipher, i: nat, text: seq<byte>)
    requires Correct(c)
    ensures Cut(c.encrypt(i, text), PacketCount(|text|))
    ensures |c.encrypt(i, text)| == (PacketCount(|text|) - 1) * MAX_PAYLOAD + LastPayload(|text|)
  {
    DivCeilBounds(|text| + CIPHER_OVERHEAD, MAX_PAYLOAD);
  }

  lemma FreshStore(cfg: Config, c: Cipher, waves: seq<seq<byte>>, i: nat)
    requires Correct(c) && Describes(cfg, waves) && i < |waves|
    ensures StoreHolds(NewStore(cfg, i), c.encrypt(i, waves[i]), PacketCount(|waves[i]|), {})
  {
    CipherCut(c, i, waves[i]);
  }

  lemma FreshTracks(cfg: Config, c: Cipher, waves: seq<seq<byte>>)
    requires Correct(c) && Describes(cfg, waves)
    ensures Tracks(Fresh(cfg), c, waves, {})
  {
    forall i | 0 <= i < |waves|
      ensures WaveHolds(Fresh(cfg), c, waves[i], i, Gathered(cfg, {}, i, waves[i]))
    {
      FreshStore(cfg, c, waves, i);
      CipherCut(c, i, waves[i]);
      assert 0 in Range(PacketCount(|waves[i]|));
      assert Gathered(cfg, {}, i, waves[i]) == {};
    }
  }

  /** The insertion range of an honest packet is its slot. */
  lemma InsertIsFilled(cfg: Config, c: Cipher, waves: seq<seq<byte>>, st: Store, n: nat, i: nat, j: nat)
    requires Correct(c) && Describes(cfg, waves) && i < |waves| && j < PacketCount(|waves[i]|)
    requires n == i * cfg.maxPacketsPerWave + j && |st.buffer| == |c.encrypt(i, waves[i])|
    ensures j * MAX_PAYLOAD < |st.buffer|
    ensures var cipher := c.encrypt(i, waves[i]); Insert(cfg, st, n, Slot(cipher, j)) == Some(Filled(st, cipher, j))
  {
    var width, count := cfg.maxPacketsPerWave, PacketCount(|waves[i]|);
    CipherCut(c, i, waves[i]);
    SlotSize(c.encrypt(i, waves[i]), |waves[i]|, j);
    DivUnique(n, width, i, j);
    LastPacket(|waves|, width, PacketCount(|waves[|waves| - 1]|), i, j);
  }

  lemma MineGrows(got: set<nat>, width: nat, i: nat, j: nat, k: nat, count: nat)
    requires j < width && count <= width && (k == i ==> j < count)
    ensures Mine(got + {i * width + j}, width, k, count) == Mine(got, width, k, count) + if k == i then {j} else {}
  {
    forall l | l in Range(count)
      ensures k * width + l == i * width + j <==> k == i && l == j
    {
      if k * width + l == i * width + j {
        DivUnique(k * width + l, width, k, l);
        DivUnique(i * width + j, width, i, j);
      }
    }
  }

  lemma PastedWave(slab: seq<byte>, m: nat, i: nat, text: seq<byte>, k: nat, size: nat)
    requires |text| <= m && size <= m && i * m + |text| <= |slab| && k * m + size <= |slab|
    ensures var s := Pasted(slab, i * m, text);
            && s[i * m..i * m + |text|] == text
            && (k != i ==> s[k * m..k * m + size] == slab[k * m..k * m + size])
  {
    if k < i {
      ProductMonotone(k + 1, i, m);
      ProductStep(k, m);
    } else if i < k {
      ProductMonotone(i + 1, k, m);
      ProductStep(i, m);
    }
  }

  // ---- One arrival ----

  lemma OtherWaveHolds(r: Receiver, r': Receiver, c: Cipher, text: seq<byte>, k: nat, mine: set<nat>, i: nat, pasted: seq<byte>)
    requires WaveHolds(r, c, text, k, mine) && k != i && r'.cfg == r.cfg
    requires k in r'.stores <==> k in r.stores
    requires k in r.stores ==> r'.stores[k] == r.stores[k]
    requires |text| <= r.cfg.maxPlaintextWave && |pasted| <= r.cfg.maxPlaintextWave
    requires i * r.cfg.maxPlaintextWave + |pasted| <= |r.slab|
    requires r'.slab == r.slab || r'.slab == Pasted(r.slab, i * r.cfg.maxPlaintextWave, pasted)
    ensures WaveHolds(r', c, text, k, mine)
  {
    if mine == Range(PacketCount(|text|)) {
      PastedWave(r.slab, r.cfg.maxPlaintextWave, i, pasted, k, |text|);
    }
  }

  /** The receiver differs from `r` at wave i at most, and by packet n having been seen. */
  ghost predicate Touches(r: Receiver, r': Receiver, n: nat, i: nat, text: seq<byte>)
  {
    && r'.cfg == r.cfg && |r'.wavesSeen| == |r.wavesSeen|
    && n < |r.packetsSeen| && r'.packetsSeen == r.packetsSeen[n := true]
    && (forall k :: k != i ==> (k in r'.stores <==> k in r.stores))
    && (forall k :: k != i && k in r.stores ==> r'.stores[k] == r.stores[k])
    && var at := i * r.cfg.maxPlaintextWave;
       at + |text| <= |r.slab| && (r'.slab == r.slab || r'.slab == Pasted(r.slab, at, text))
  }

  lemma GatheredGrows(cfg: Config, got: set<nat>, n: nat, i: nat, j: nat, k: nat, text: seq<byte>)
    requires Fits(cfg, text) && j < cfg.maxPacketsPerWave && n == i * cfg.maxPacketsPerWave + j
    requires k == i ==> j < PacketCount(|text|)
    ensures Gathered(cfg, got + {n}, k, text) == if k == i then Gathered(cfg, got, k, text) + {j} else Gathered(cfg, got, k, text)
  {
    MineGrows(got, cfg.maxPacketsPerWave, i, j, k, PacketCount(|text|));
  }

  /** Wave k after one more packet of wave i. */
  lemma WaveAfter(r: Receiver, r': Receiver, c: Cipher, got: set<nat>, n: nat, i: nat, j: nat, pasted: seq<byte>, k: nat, text: seq<byte>)
    requires Fits(r.cfg, text) && Fits(r.cfg, pasted) && j < PacketCount(|pasted|) && k != i
    requires n == i * r.cfg.maxPacketsPerWave + j && Touches(r, r', n, i, pasted)
    requires WaveHolds(r, c, text, k, Gathered(r.cfg, got, k, text))
    ensures WaveHolds(r', c, text, k, Gathered(r.cfg, got + {n}, k, text))
  {
    GatheredGrows(r.cfg, got, n, i, j, k, text);
    OtherWaveHolds(r, r', c, text, k, Gathered(r.cfg, got, k, text), i, pasted);
  }

  lemma HoldsOn(r: Receiver, r': Receiver, c: Cipher, waves: seq<seq<byte>>, got: set<nat>, n: nat, i: nat, j: nat)
    requires AllFit(r.cfg, waves) && AllHold(r, c, waves, got) && i < |waves| && j < PacketCount(|waves[i]|)
    requires n == i * r.cfg.maxPacketsPerWave + j && Touches(r, r', n, i, waves[i])
    requires WaveHolds(r', c, waves[i], i, Gathered(r.cfg, got, i, waves[i]) + {j})
    ensures AllHold(r', c, waves, got + {n})
  {
    forall k | 0 <= k < |waves|
      ensures WaveHolds(r', c, waves[k], k, Gathered(r'.cfg, got + {n}, k, waves[k]))
    {
      assert Fits(r.cfg, waves[k]) && Fits(r.cfg, waves[i]);
      if k == i {
        GatheredGrows(r.cfg, got, n, i, j, i, waves[i]);
      } else {
        WaveAfter(r, r', c, got, n, i, j, waves[i], k, waves[k]);
      }
    }
  }

  lemma NotesOn(r: Receiver, r': Receiver, got: set<nat>, n: nat, i: nat, text: seq<byte>)
    requires Notes(r, got) && Touches(r, r', n, i, text) && i < r.cfg.waveCount
    ensures Notes(r', got + {n})
  {
  }

  lemma DescribesFit(cfg: Config, waves: seq<seq<byte>>)
    requires Describes(cfg, waves)
    ensures AllFit(cfg, waves)
  {
  }

  lemma TracksOn(r: Receiver, r': Receiver, c: Cipher, waves: seq<seq<byte>>, got: set<nat>, n: nat, i: nat, j: nat)
    requires Tracks(r, c, waves, got) && i < |waves| && j < PacketCount(|waves[i]|)
    requires n == i * r.cfg.maxPacketsPerWave + j && Touches(r, r', n, i, waves[i])
    requires WaveHolds(r', c, waves[i], i, Gathered(r.cfg, got, i, waves[i]) + {j})
    ensures Tracks(r', c, waves, got + {n})
  {
    DescribesFit(r.cfg, waves);
    NotesOn(r, r', got, n, i, waves[i]);
    HoldsOn(r, r', c, waves, got, n, i, j);
  }

  lemma Numbered(cfg: Config, waves: seq<seq<byte>>, i: nat, j: nat)
    requires Describes(cfg, waves) && i < |waves| && j < PacketCount(|waves[i]|)
    ensures i * cfg.maxPacketsPerWave + j < cfg.packetsNeeded
  {
    if i < |waves| - 1 {
      ProductMonotone(i + 1, |waves| - 1, cfg.maxPacketsPerWave);
      ProductStep(i, cfg.maxPacketsPerWave);
    }
  }

  function WithPacket(r: Receiver, n: nat, i: nat, st: Store): Receiver
    requires n < |r.packetsSeen|
  {
    r.(packetsSeen := r.packetsSeen[n := true], stores := r.stores[i := st])
  }

  /** on_packet_received when the packet is new and its slot free. */
  lemma ReceivedInSlot(r: Receiver, c: Cipher, n: nat, i: nat, text: seq<byte>, mine: set<nat>, j: nat)
    requires Correct(c) && n < |r.packetsSeen| && !r.packetsSeen[n] && i in r.stores
    requires var cipher := c.encrypt(i, text);
             && j < PacketCount(|text|) && j !in mine && StoreHolds(r.stores[i], cipher, PacketCount(|text|), mine)
             && j * MAX_PAYLOAD < |cipher|
             && Insert(r.cfg, r.stores[i], n, Slot(cipher, j)) == Some(Filled(r.stores[i], cipher, j))
    ensures var cipher := c.encrypt(i, text);
            var r' := WithPacket(r, n, i, Filled(r.stores[i], cipher, j));
            r.Received(c, n, i, Slot(cipher, j))
            == if mine + {j} == Range(PacketCount(|text|)) then r'.Finished(i, text) else Some((r', InsertSuccess))
  {
    var cipher, count := c.encrypt(i, text), PacketCount(|text|);
    FilledHolds(r.stores[i], cipher, count, mine, j);
    FullExactly(mine + {j}, count);
    if mine + {j} == Range(count) {
      var st := Filled(r.stores[i], cipher, j);
      FullStore(st, cipher, count);
      assert st.buffer[..st.bytesWritten] == cipher;
    }
  }

  /** A packet that does not complete its wave. */
  lemma SlotArrival(r: Receiver, c: Cipher, n: nat, i: nat, text: seq<byte>, mine: set<nat>, j: nat)
    requires Correct(c) && n < |r.packetsSeen| && i in r.stores && j < PacketCount(|text|) && j !in mine
    requires StoreHolds(r.stores[i], c.encrypt(i, text), PacketCount(|text|), mine)
    requires mine + {j} != Range(PacketCount(|text|)) && i * r.cfg.maxPlaintextWave + |text| <= |r.slab|
    ensures j * MAX_PAYLOAD < |c.encrypt(i, text)|
    ensures var r' := WithPacket(r, n, i, Filled(r.stores[i], c.encrypt(i, text), j));
            Touches(r, r', n, i, text) && WaveHolds(r', c, text, i, mine + {j})
  {
    FilledHolds(r.stores[i], c.encrypt(i, text), PacketCount(|text|), mine, j);
  }

  /** A packet that completes its wave. */
  lemma LastArrival(r: Receiver, c: Cipher, n: nat, i: nat, text: seq<byte>, st: Store)
    requires n < |r.packetsSeen| && i in r.stores && i < |r.wavesSeen| && |text| <= r.cfg.maxPlaintextWave
    requires i * r.cfg.maxPlaintextWave + |text| <= |r.slab|
    ensures var out := WithPacket(r, n, i, st).Finished(i, text);
            && out.Some? && Touches(r, out.value.0, n, i, text)
            && WaveHolds(out.value.0, c, text, i, Range(PacketCount(|text|)))
            && out.value.1 == if out.value.0.stores == map[] then GroupComplete(i) else WaveComplete(i)
  {
    PastedWave(r.slab, r.cfg.maxPlaintextWave, i, text, i, |text|);
  }

  ghost predicate Completes(r: Receiver, got: set<nat>, i: nat, j: nat, text: seq<byte>)
  {
    Gathered(r.cfg, got, i, text) + {j} == Range(PacketCount(|text|))
  }

  lemma NewPacket(r: Receiver, c: Cipher, waves: seq<seq<byte>>, got: set<nat>, n: nat, i: nat, j: nat)
    requires Correct(c) && Tracks(r, c, waves, got) && i < |waves| && j < PacketCount(|waves[i]|)
    requires n == i * r.cfg.maxPacketsPerWave + j && n !in got
    ensures n < |r.packetsSeen| && !r.packetsSeen[n] && i in r.stores && j !in Gathered(r.cfg, got, i, waves[i])
    ensures StoreHolds(r.stores[i], c.encrypt(i, waves[i]), PacketCount(|waves[i]|), Gathered(r.cfg, got, i, waves[i]))
    ensures i * r.cfg.maxPlaintextWave + |waves[i]| <= |r.slab| && |waves[i]| <= r.cfg.maxPlaintextWave && i < |r.wavesSeen|
  {
    Numbered(r.cfg, waves, i, j);
    assert WaveHolds(r, c, waves[i], i, Gathered(r.cfg, got, i, waves[i]));
    assert j in Range(PacketCount(|waves[i]|));
  }

  lemma FirstArrival(r: Receiver, c: Cipher, waves: seq<seq<byte>>, got: set<nat>, n: nat, i: nat, j: nat)
    requires Correct(c) && Tracks(r, c, waves, got) && i < |waves| && j < PacketCount(|waves[i]|)
    requires n == i * r.cfg.maxPacketsPerWave + j && n !in got
    ensures j * MAX_PAYLOAD < |c.encrypt(i, waves[i])|
    ensures var out := r.Received(c, n, i, Slot(c.encrypt(i, waves[i]), j));
            && out.Some? && Tracks(out.value.0, c, waves, got + {n})
            && (out.value.1.GroupComplete? <==> out.value.0.stores == map[]) && out.value.0.cfg == r.cfg
            && out.value.1 == if !Completes(r, got, i, j, waves[i]) then InsertSuccess
                              else if out.value.0.stores == map[] then GroupComplete(i) else WaveComplete(i)
  {
    var text, mine := waves[i], Gathered(r.cfg, got, i, waves[i]);
    var cipher := c.encrypt(i, text);
    NewPacket(r, c, waves, got, n, i, j);
    InsertIsFilled(r.cfg, c, waves, r.stores[i], n, i, j);
    ReceivedInSlot(r, c, n, i, text, mine, j);
    var st := Filled(r.stores[i], cipher, j);
    if Completes(r, got, i, j, text) {
      LastArrival(r, c, n, i, text, st);
      TracksOn(r, WithPacket(r, n, i, st).Finished(i, text).value.0, c, waves, got, n, i, j);
    } else {
      SlotArrival(r, c, n, i, text, mine, j);
      assert i in WithPacket(r, n, i, st).stores;
      TracksOn(r, WithPacket(r, n, i, st), c, waves, got, n, i, j);
    }
  }

  lemma StoreGone(r: Receiver, c: Cipher, waves: seq<seq<byte>>, got: set<nat>, i: nat)
    requires AllHold(r, c, waves, got) && i < |waves|
    ensures i !in r.stores <==> Gathered(r.cfg, got, i, waves[i]) == Range(PacketCount(|waves[i]|))
  {
    assert WaveHolds(r, c, waves[i], i, Gathered(r.cfg, got, i, waves[i]));
  }

  lemma ArrivedIfGone(r: Receiver, c: Cipher, waves: seq<seq<byte>>, got: set<nat>, n: nat)
    requires Tracks(r, c, waves, got) && n < r.cfg.packetsNeeded && r.stores == map[]
    ensures n in got
  {
    Located(waves, r.cfg.maxPacketsPerWave, n);
    var i, j := n / r.cfg.maxPacketsPerWave, n % r.cfg.maxPacketsPerWave;
    StoreGone(r, c, waves, got, i);
    assert j in Gathered(r.cfg, got, i, waves[i]);
  }

  /** No store is left exactly when every packet has arrived. */
  lemma EmptyExactly(r: Receiver, c: Cipher, waves: seq<seq<byte>>, got: set<nat>)
    requires Tracks(r, c, waves, got)
    ensures r.stores == map[] <==> got == Range(r.cfg.packetsNeeded)
  {
    if got == Range(r.cfg.packetsNeeded) {
      forall i | 0 <= i < |waves|
        ensures i !in r.stores
      {
        AllOfWave(r.cfg, waves, got, i);
        StoreGone(r, c, waves, got, i);
      }
    }
    if r.stores == map[] {
      forall n | n in Range(r.cfg.packetsNeeded)
        ensures n in got
      {
        ArrivedIfGone(r, c, waves, got, n);
      }
    }
  }

  lemma GatheredAll(cfg: Config, got: set<nat>, i: nat, text: seq<byte>)
    requires forall j :: j in Range(PacketCount(|text|)) ==> i * cfg.maxPacketsPerWave + j in got
    ensures Gathered(cfg, got, i, text) == Range(PacketCount(|text|))
  {
  }

  lemma AllIn(cfg: Config, waves: seq<seq<byte>>, got: set<nat>, i: nat, j: nat)
    requires Describes(cfg, waves) && i < |waves| && got == Range(cfg.packetsNeeded) && j < PacketCount(|waves[i]|)
    ensures i * cfg.maxPacketsPerWave + j in got
  {
    Numbered(cfg, waves, i, j);
  }

  lemma AllOfWave(cfg: Config, waves: seq<seq<byte>>, got: set<nat>, i: nat)
    requires Describes(cfg, waves) && i < |waves| && got == Range(cfg.packetsNeeded)
    ensures Gathered(cfg, got, i, waves[i]) == Range(PacketCount(|waves[i]|))
  {
    var count := PacketCount(|waves[i]|);
    forall j | j in Range(count)
      ensures i * cfg.maxPacketsPerWave + j in got
    {
      AllIn(cfg, waves, got, i, j);
    }
    GatheredAll(cfg, got, i, waves[i]);
  }
}
