/** A whole file: cut into groups, each group sent in packets and put together from any arrivals. */
module FileTransfer {
  import opened Words
  import opened Arith
  import opened Finite
  import opened GroupLayout
  import opened GroupTheorems
  import opened Streaming

  /** The packets of a group; its identifier goes with them as 64 bits. */
  function PacketsOf(c: Cipher, g: Group, width: nat): seq<(nat, seq<byte>)>
    requires width >= 1
  {
    GroupPackets(ForGroup(c, g.id % TWO64), width, Waves(g.bytes, width), |Waves(g.bytes, width)|)
  }

  /** Every packet of the group arrives, in some order, perhaps more than once. */
  ghost predicate AllArrive(c: Cipher, g: Group, width: nat, ns: seq<nat>)
    requires width >= 1
  {
    && g.bytes != [] && |Waves(g.bytes, width)| <= TWO32
    && Below(ns, |PacketsOf(c, g, width)|) && Elements(ns) == Range(|PacketsOf(c, g, width)|)
  }

  ghost predicate GroupRecovered(c: Cipher, g: Group, width: nat, ns: seq<nat>)
    requires width >= 1 && AllArrive(c, g, width, ns)
  {
    Recovered(Reception(c, g.bytes, width, g.id % TWO64, ns), g.bytes)
  }

  /** Bytes in the last group of a source. */
  function LastGroup(length: nat, max: nat): nat
    requires max > 0
  {
    if length % max == 0 then max else length % max
  }

  lemma {:induction false} LastGroupSize(source: seq<byte>, max: nat, id: nat)
    requires max > 0 && source != []
    ensures var gs := Groups(source, max, id); |gs| >= 1 && |gs[|gs| - 1].bytes| == LastGroup(|source|, max)
    ensures |Groups(source, max, id)| > 1 <==> |source| > max
    decreases |source|
  {
    if |source| <= max {
      if |source| < max { DivUnique(|source|, max, 0, |source|); } else { DivUnique(|source|, max, 1, 0); }
      assert source[..|source|] == source && source[|source|..] == [];
      assert Groups([], max, id + 1) == [];
      assert Groups(source, max, id) == [Group(id, source)];
    } else {
      DivStep(|source|, max);
      LastGroupSize(source[max..], max, id + 1);
      var rest := Groups(source[max..], max, id + 1);
      assert Groups(source, max, id) == [Group(id, source[..max])] + rest;
    }
  }

  /** Whether a group's length is a multiple of a wave's depends on the group size and the file's length alone. */
  lemma {:induction false} NoGroupWhole(source: seq<byte>, max: nat, id: nat, m: nat)
    requires max > 0 && m > 0 && source != []
    ensures (forall k :: 0 <= k < |Groups(source, max, id)| ==> |Groups(source, max, id)[k].bytes| % m != 0)
            <==> (|source| > max ==> max % m != 0) && LastGroup(|source|, max) % m != 0
  {
    var gs := Groups(source, max, id);
    GroupsPartitionSource(source, max, id);
    LastGroupSize(source, max, id);
    if |source| > max { assert |gs[0].bytes| == max; }
    assert |gs[|gs| - 1].bytes| == LastGroup(|source|, max);
  }

  /**
   With every packet of every group delivered, all groups come together, and then join to the file, if
   and only if neither the group size, where it is used, nor the last group is a multiple of a wave.
   */
  lemma {:induction false} FileRecoveredExactly(c: Cipher, source: seq<byte>, max: nat, width: nat, id: nat, arrivals: nat -> seq<nat>)
    requires Correct(c) && max > 0 && width >= 1 && source != []
    requires forall k :: 0 <= k < |Groups(source, max, id)| ==> AllArrive(c, Groups(source, max, id)[k], width, arrivals(k))
    ensures Joined(Groups(source, max, id)) == source
    ensures (forall k :: 0 <= k < |Groups(source, max, id)| ==> GroupRecovered(c, Groups(source, max, id)[k], width, arrivals(k)))
            <==> (|source| > max ==> max % PlainPerWave(width) != 0) && LastGroup(|source|, max) % PlainPerWave(width) != 0
  {
    var gs, m := Groups(source, max, id), PlainPerWave(width);
    GroupsPartitionSource(source, max, id);
    forall k | 0 <= k < |gs|
      ensures GroupRecovered(c, gs[k], width, arrivals(k)) <==> |gs[k].bytes| % m != 0
    {
      RecoveredExactly(c, gs[k].bytes, width, gs[k].id % TWO64, arrivals(k));
    }
    NoGroupWhole(source, max, id, m);
  }
}
