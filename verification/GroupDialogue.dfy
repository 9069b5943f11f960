/** Both ends of a group together: what the receiver reports is what the sender has acknowledged. */
module GroupDialogue {
  import opened Words
  import opened Arith
  import opened Finite
  import opened GroupLayout
  import opened GroupReceivers
  import opened GroupReassembly
  import opened GroupSenders
  import opened GroupTheorems

  /** The waves whose completion was reported, in that order: the receiver acknowledges each. */
  function Named(statuses: seq<Status>): seq<nat>
    decreases |statuses|
  {
    if statuses == [] then [] else
    Named(statuses[..|statuses| - 1]) + Name(statuses[|statuses| - 1])
  }

  function Name(status: Status): seq<nat>
  {
    match status
    case WaveComplete(wave) => [wave]
    case GroupComplete(wave) => [wave]
    case _ => []
  }

  /** A wave that has packets. */
  ghost predicate HasPackets(width: nat, needed: nat, i: nat)
    requires width >= 1
  {
    exists n: nat :: n < needed && n / width == i
  }

  ghost predicate NoneTwice(waves: seq<nat>)
  {
    forall k, l :: 0 <= k < l < |waves| ==> waves[k] != waves[l]
  }

  lemma {:induction false} ReportsFront(width: nat, needed: nat, ns: seq<nat>, statuses: seq<Status>)
    requires width >= 1 && ns != [] && Reports(width, needed, ns, statuses)
    ensures Reports(width, needed, ns[..|ns| - 1], statuses[..|ns| - 1])
    ensures statuses[|ns| - 1] == StatusFor(width, needed, Elements(ns[..|ns| - 1]), ns[|ns| - 1])
  {
    var front := ns[..|ns| - 1];
    forall k | 0 <= k < |front|
      ensures front[..k] == ns[..k]
    {
    }
  }

  /** One arrival names its wave if it completes it, and no other wave changes. */
  lemma NameExactly(width: nat, needed: nat, got: set<nat>, n: nat, i: nat)
    requires width >= 1 && n < needed
    ensures i in Name(StatusFor(width, needed, got, n))
            <==> WaveIn(width, needed, got + {n}, i) && !WaveIn(width, needed, got, i)
  {
    if n in got {
      assert got + {n} == got;
    } else if i == n / width {
      assert !WaveIn(width, needed, got, i);
    } else {
      assert WaveIn(width, needed, got + {n}, i) ==> WaveIn(width, needed, got, i);
    }
  }

  /** `named` are the waves whose packets are all in, each once. */
  ghost predicate Complete(width: nat, needed: nat, got: set<nat>, named: seq<nat>)
    requires width >= 1
  {
    && NoneTwice(named)
    && forall i: nat :: i in named <==> HasPackets(width, needed, i) && WaveIn(width, needed, got, i)
  }

  /** Every wave is named once, by the arrival of its last packet, and no other is named. */
  lemma {:induction false} NamedExactly(width: nat, needed: nat, ns: seq<nat>, statuses: seq<Status>)
    requires width >= 1 && Below(ns, needed) && Reports(width, needed, ns, statuses)
    ensures Complete(width, needed, Elements(ns), Named(statuses))
    decreases |ns|
  {
    if ns == [] {
      NothingNamed(width, needed, Elements(ns));
    } else {
      var front, n := ns[..|ns| - 1], ns[|ns| - 1];
      ReportsFront(width, needed, ns, statuses);
      NamedExactly(width, needed, front, statuses[..|front|]);
      ElementsSplit(ns);
      NamedSplits(statuses);
      NamedOn(width, needed, Elements(front), n, Named(statuses[..|front|]));
    }
  }

  lemma {:induction false} NamedSplits(statuses: seq<Status>)
    requires statuses != []
    ensures Named(statuses) == Named(statuses[..|statuses| - 1]) + Name(statuses[|statuses| - 1])
  {
  }

  lemma NothingNamed(width: nat, needed: nat, got: set<nat>)
    requires width >= 1 && got == {}
    ensures Complete(width, needed, got, [])
  {
    forall i: nat | HasPackets(width, needed, i)
      ensures !WaveIn(width, needed, got, i)
    {
      var n: nat :| n < needed && n / width == i;
      assert n !in got;
    }
  }

  lemma NamedOn(width: nat, needed: nat, got: set<nat>, n: nat, named: seq<nat>)
    requires width >= 1 && n < needed && Complete(width, needed, got, named)
    ensures Complete(width, needed, got + {n}, named + Name(StatusFor(width, needed, got, n)))
  {
    var name := Name(StatusFor(width, needed, got, n));
    assert HasPackets(width, needed, n / width);
    NameExactly(width, needed, got, n, n / width);
    forall i: nat
      ensures i in named + name <==> HasPackets(width, needed, i) && WaveIn(width, needed, got + {n}, i)
    {
      NameExactly(width, needed, got, n, i);
      if WaveIn(width, needed, got, i) { assert WaveIn(width, needed, got + {n}, i); }
    }
  }

  lemma {:induction false} NoneTwiceCount(waves: seq<nat>)
    requires NoneTwice(waves)
    ensures |Elements(waves)| == |waves|
    decreases |waves|
  {
    if waves == [] {
      assert Elements(waves) == {};
    } else {
      NoneTwiceCount(waves[..|waves| - 1]);
      ElementsSplit(waves);
    }
  }

  /** The waves that have packets are those the configuration counts. */
  lemma WavesCounted(cfg: Config, waves: seq<seq<byte>>, i: nat)
    requires Describes(cfg, waves)
    ensures cfg.maxPacketsPerWave >= 1
    ensures HasPackets(cfg.maxPacketsPerWave, cfg.packetsNeeded, i) <==> i < cfg.waveCount
  {
    var width := cfg.maxPacketsPerWave;
    if i < cfg.waveCount {
      SomePacket(|waves[i]|);
      PlaceInWave(cfg, waves, i, 0);
    }
    forall n: nat | n < cfg.packetsNeeded && n / width == i
      ensures i < cfg.waveCount
    {
      Located(waves, width, n);
    }
  }

  lemma SomePacket(size: nat)
    ensures PacketCount(size) >= 1
  {
    DivCeilBounds(size + CIPHER_OVERHEAD, MAX_PAYLOAD);
  }

  /** `named` are the waves whose packets are all in. */
  ghost predicate Names(cfg: Config, got: set<nat>, named: seq<nat>)
  {
    && cfg.maxPacketsPerWave >= 1
    && forall i: nat :: i in named <==> i < cfg.waveCount && WaveIn(cfg.maxPacketsPerWave, cfg.packetsNeeded, got, i)
  }

  lemma {:induction false} NamedAre(cfg: Config, waves: seq<seq<byte>>, ns: seq<nat>, statuses: seq<Status>)
    requires Describes(cfg, waves) && Below(ns, cfg.packetsNeeded) && cfg.maxPacketsPerWave >= 1
    requires Reports(cfg.maxPacketsPerWave, cfg.packetsNeeded, ns, statuses)
    ensures NoneTwice(Named(statuses)) && Names(cfg, Elements(ns), Named(statuses))
  {
    NamedExactly(cfg.maxPacketsPerWave, cfg.packetsNeeded, ns, statuses);
    forall i: nat
      ensures i in Named(statuses)
              <==> i < cfg.waveCount && WaveIn(cfg.maxPacketsPerWave, cfg.packetsNeeded, Elements(ns), i)
    {
      WavesCounted(cfg, waves, i);
    }
  }

  lemma {:induction false} FullCount(named: seq<nat>, count: nat)
    requires NoneTwice(named) && forall k :: 0 <= k < |named| ==> named[k] < count
    ensures Distinct(named, count) && (|named| == count <==> Elements(named) == Range(count))
  {
    assert Elements(named) <= Range(count);
    NoneTwiceCount(named);
    FullExactly(Elements(named), count);
  }

  /** All waves are named exactly when all packets are in. */
  lemma {:induction false} AllNamedExactly(cfg: Config, waves: seq<seq<byte>>, ns: seq<nat>, statuses: seq<Status>)
    requires Describes(cfg, waves) && Below(ns, cfg.packetsNeeded) && cfg.maxPacketsPerWave >= 1
    requires Reports(cfg.maxPacketsPerWave, cfg.packetsNeeded, ns, statuses)
    ensures Distinct(Named(statuses), cfg.waveCount)
    ensures |Named(statuses)| == cfg.waveCount <==> Elements(ns) == Range(cfg.packetsNeeded)
  {
    NamedAre(cfg, waves, ns, statuses);
    assert forall k :: 0 <= k < |Named(statuses)| ==> Named(statuses)[k] in Named(statuses);
    FullCount(Named(statuses), cfg.waveCount);
    AllWavesIn(cfg, waves, ns, Named(statuses));
  }

  lemma AllWavesIn(cfg: Config, waves: seq<seq<byte>>, ns: seq<nat>, named: seq<nat>)
    requires Describes(cfg, waves) && Below(ns, cfg.packetsNeeded) && Names(cfg, Elements(ns), named)
    ensures Elements(named) == Range(cfg.waveCount) <==> Elements(ns) == Range(cfg.packetsNeeded)
  {
    if Elements(named) == Range(cfg.waveCount) {
      forall n: nat | n < cfg.packetsNeeded
        ensures n in Elements(ns)
      {
        InNamedWave(cfg, waves, Elements(ns), named, n);
      }
      assert Elements(ns) == Range(cfg.packetsNeeded);
    }
    if Elements(ns) == Range(cfg.packetsNeeded) {
      WavesOfAll(cfg, Elements(ns), named);
    }
  }

  lemma InNamedWave(cfg: Config, waves: seq<seq<byte>>, got: set<nat>, named: seq<nat>, n: nat)
    requires Describes(cfg, waves) && Names(cfg, got, named) && Elements(named) == Range(cfg.waveCount) && n < cfg.packetsNeeded
    ensures n in got
  {
    Located(waves, cfg.maxPacketsPerWave, n);
    var i := n / cfg.maxPacketsPerWave;
    assert i in Range(cfg.waveCount);
    assert i in Elements(named);
    assert WaveIn(cfg.maxPacketsPerWave, cfg.packetsNeeded, got, i);
  }

  lemma WavesOfAll(cfg: Config, got: set<nat>, named: seq<nat>)
    requires Names(cfg, got, named) && got == Range(cfg.packetsNeeded)
    ensures Elements(named) == Range(cfg.waveCount)
  {
    forall i: nat | i < cfg.waveCount
      ensures i in named
    {
      assert WaveIn(cfg.maxPacketsPerWave, cfg.packetsNeeded, got, i);
    }
  }

  /** The arrival that completes a wave completes the group exactly when nothing is missing then. */
  lemma LastStatus(width: nat, needed: nat, ns: seq<nat>, statuses: seq<Status>)
    requires width >= 1 && ns != [] && Reports(width, needed, ns, statuses)
    requires Name(statuses[|ns| - 1]) != []
    ensures statuses[|ns| - 1].GroupComplete? <==> Elements(ns) == Range(needed)
  {
    ReportsFront(width, needed, ns, statuses);
    ElementsSplit(ns);
  }

  /**
   Packets arrive in any order, with any repetitions, and the receiver acknowledges every wave it
   completes. When the last arrival completes a wave, its acknowledgement makes the sender report that the
   group is complete if and only if the receiver reported the same.
   */
  lemma {:induction false} BothEndsComplete(c: Cipher, plain: seq<byte>, width: nat, groupId: nat, ram: map<nat, seq<byte>>, ns: seq<nat>)
    requires Correct(c) && plain != [] && width >= 1 && |Waves(plain, width)| <= TWO32
    requires |plain| % PlainPerWave(width) != 0
    requires Below(ns, |GroupPackets(ForGroup(c, groupId), width, Waves(plain, width), |Waves(plain, width)|)|) && ns != []
    ensures Reception(c, plain, width, groupId, ns).Some? && |Reception(c, plain, width, groupId, ns).value.1| == |ns|
    ensures var cfg := Metadata(|plain|, width, groupId).value;
            var statuses := Reception(c, plain, width, groupId, ns).value.1;
            var status := statuses[|ns| - 1];
            var s := AfterAcks(Sender(cfg, ram, 0, 0), Named(statuses[..|ns| - 1]));
            forall wave :: wave in Name(status) ==> (s.Acked(wave).1 <==> status.GroupComplete?)
  {
    var cfg := Metadata(|plain|, width, groupId).value;
    ForGroupCorrect(c, groupId);
    PacketsCoverGroup(ForGroup(c, groupId), plain, width, groupId);
    Reassembles(c, plain, width, groupId, ns);
    DescribesGroup(plain, width, groupId);
    var statuses := Reception(c, plain, width, groupId, ns).value.1;
    if Name(statuses[|ns| - 1]) != [] {
      AcksFollow(plain, width, groupId, ram, ns, statuses);
    }
  }

  lemma {:induction false} AcksFollow(plain: seq<byte>, width: nat, groupId: nat, ram: map<nat, seq<byte>>, ns: seq<nat>, statuses: seq<Status>)
    requires plain != [] && width >= 1 && |plain| % PlainPerWave(width) != 0 && |Waves(plain, width)| <= TWO32 && ns != []
    requires var cfg := Metadata(|plain|, width, groupId).value;
             Below(ns, cfg.packetsNeeded) && Reports(width, cfg.packetsNeeded, ns, statuses)
    requires Name(statuses[|ns| - 1]) != []
    ensures var cfg := Metadata(|plain|, width, groupId).value;
            var s := AfterAcks(Sender(cfg, ram, 0, 0), Named(statuses[..|ns| - 1]));
            s.Acked(Name(statuses[|ns| - 1])[0]).1 <==> statuses[|ns| - 1].GroupComplete?
  {
    var cfg := Metadata(|plain|, width, groupId).value;
    var named, name := Named(statuses[..|ns| - 1]), Name(statuses[|ns| - 1]);
    DescribesGroup(plain, width, groupId);
    AllNamedExactly(cfg, Waves(plain, width), ns, statuses);
    LastStatus(width, cfg.packetsNeeded, ns, statuses);
    assert Named(statuses) == named + name && name == [name[0]];
    assert (named + name)[..|named + name| - 1] == named;
    AcksCompleteExactly(plain, width, groupId, ram, named + name);
  }
}
