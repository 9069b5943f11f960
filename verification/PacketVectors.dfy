/** Where a packet goes and how its number is found again (citadel_crypt/src/packet_vector.rs, misc.rs). */
module PacketVectors {
  import opened Words
  import opened Arith

  const PORT_RANGE: nat := 14

  type Ports = (nat, nat)

  datatype PacketVector = PacketVector(groupId: u64, waveId: u32, localPort: nat, remotePort: nat, trueSequence: nat)

  /** generate_packet_vector: the wave index is cast to 32 bits */
  function Vector(n: nat, groupId: u64, mapping: seq<Ports>): PacketVector
    requires mapping != []
  {
    var (local, remote) := mapping[n % |mapping|];
    PacketVector(groupId, (n / |mapping|) % TWO32, local, remote, n)
  }

  ghost predicate Distinct(mapping: seq<Ports>)
  {
    forall i, j :: 0 <= i < j < |mapping| ==> mapping[i] != mapping[j]
  }

  /** generate_packet_coordinates_inv: the first entry with these ports */
  method Coordinates(waveId: u32, srcPort: nat, localPort: nat, mapping: seq<Ports>) returns (n: Option<nat>)
    ensures n.None? <==> (srcPort, localPort) !in mapping
    ensures n.Some? ==> mapping != [] && n.value / |mapping| == waveId && mapping[n.value % |mapping|] == (srcPort, localPort)
    ensures n.Some? ==> (srcPort, localPort) !in mapping[..n.value % |mapping|]
  {
    for idx := 0 to |mapping|
      invariant (srcPort, localPort) !in mapping[..idx]
    {
      var (inPort, outPort) := mapping[idx];
      if inPort == srcPort && outPort == localPort {
        DivUnique(waveId * |mapping| + idx, |mapping|, waveId, idx);
        return Some(waveId * |mapping| + idx);
      }
    }
    assert mapping[..|mapping|] == mapping;
    return None;
  }

  /** A number the search may come up with for the header fields. */
  ghost predicate Finds(waveId: u32, ports: Ports, mapping: seq<Ports>, n: nat)
  {
    mapping != [] && n / |mapping| == waveId && mapping[n % |mapping|] == ports
  }

  lemma SamePlace(mapping: seq<Ports>, i: nat, j: nat)
    requires Distinct(mapping) && i < |mapping| && j < |mapping| && mapping[i] == mapping[j]
    ensures i == j
  {
  }

  /** What is written in the header finds its way back to some number, of the same place in its wave. */
  lemma VectorIsFound(n: nat, groupId: u64, mapping: seq<Ports>)
    requires mapping != []
    ensures var v := Vector(n, groupId, mapping);
            && v.groupId == groupId && v.trueSequence == n && (v.localPort, v.remotePort) in mapping
            && v.waveId < TWO32 && Finds(v.waveId, (v.localPort, v.remotePort), mapping, v.waveId * |mapping| + n % |mapping|)
  {
    var v := Vector(n, groupId, mapping);
    assert (v.localPort, v.remotePort) == mapping[n % |mapping|];
    DivUnique(v.waveId * |mapping| + n % |mapping|, |mapping|, v.waveId, n % |mapping|);
  }

  /** The fields in the header determine the sequence number exactly when its wave index fits 32 bits. */
  lemma VectorInverts(n: nat, groupId: u64, mapping: seq<Ports>, found: nat)
    requires mapping != [] && Distinct(mapping)
    requires var v := Vector(n, groupId, mapping); Finds(v.waveId, (v.localPort, v.remotePort), mapping, found)
    ensures found == n <==> n / |mapping| < TWO32
  {
    var w := |mapping|;
    SamePlace(mapping, n % w, found % w);
    if n / w < TWO32 {
      DivUnique(n / w, TWO32, 0, n / w);
      SameQuotient(n, found, w);
    }
  }

  lemma OccursTwice(s: seq<nat>, i: nat, j: nat)
    requires i < j < |s| && s[i] == s[j]
    ensures multiset(s)[s[i]] >= 2
  {
    assert s == s[..i] + [s[i]] + s[i + 1..j] + [s[j]] + s[j + 1..];
  }

  function Identity(n: nat): (r: seq<nat>)
    ensures |r| == n && forall k :: 0 <= k < n ==> r[k] == k
  {
    seq<nat>(n, (k: int) requires 0 <= k < n => k)
  }

  lemma {:induction false} IdentityOnce(n: nat, x: nat)
    ensures multiset(Identity(n))[x] <= 1 && (x >= n ==> multiset(Identity(n))[x] == 0)
  {
    if n > 0 {
      IdentityOnce(n - 1, x);
      assert Identity(n) == Identity(n - 1) + [n - 1];
    }
  }

  /** create_port_mapping, with the two shuffles it draws */
  method CreatePortMapping(inputs: seq<nat>, outputs: seq<nat>) returns (mapping: seq<Ports>)
    requires multiset(inputs) == multiset(Identity(PORT_RANGE)) && multiset(outputs) == multiset(Identity(PORT_RANGE))
    requires |inputs| == |outputs| == PORT_RANGE
    ensures |mapping| == PORT_RANGE && Distinct(mapping)
    ensures forall k :: 0 <= k < PORT_RANGE ==> mapping[k] == (inputs[k], outputs[k])
  {
    mapping := [];
    for i := 0 to PORT_RANGE
      invariant |mapping| == i
      invariant forall k :: 0 <= k < i ==> mapping[k] == (inputs[k], outputs[k])
    {
      mapping := mapping + [(inputs[i], outputs[i])];
    }
    forall i, j | 0 <= i < j < |mapping|
      ensures mapping[i] != mapping[j]
    {
      if inputs[i] == inputs[j] {
        OccursTwice(inputs, i, j);
        IdentityOnce(PORT_RANGE, inputs[i]);
      }
    }
  }
}
