/**
 Packets written in three parts into one buffer (citadel_crypt/src/secure_buffer): payload, header and
 extension are written in that order and lie in the buffer as header, payload, extension.
 */
module SecurePackets {
  import opened Words
  import opened Bytes

  const HEADER_PART: nat := 0
  const PAYLOAD_PART: nat := 1
  const PAYLOAD_EXT: nat := 2
  const PARTS: nat := 3
  const LENGTH_FIELD: nat := 4

  function Sum(layout: seq<nat>): nat
    decreases |layout|
  {
    if layout == [] then 0 else Sum(layout[..|layout| - 1]) + layout[|layout| - 1]
  }

  /** check_reserve: everything before is set, nothing from here on is */
  predicate MayReserve(layout: seq<nat>, idx: nat)
  {
    && idx < |layout| && layout[idx] == 0
    && (forall k :: 0 <= k < idx ==> layout[k] != 0)
    && (forall k :: idx <= k < |layout| ==> layout[k] == 0)
  }

  class PartitionedSecBuffer {
    var layout: seq<nat>
    var buffer: seq<byte>

    ghost predicate Valid()
      reads this
    {
      |layout| == PARTS && |buffer| == Sum(layout)
    }

    constructor ()
      ensures Valid() && layout == [0, 0, 0] && buffer == []
    {
      layout, buffer := [0, 0, 0], [];
      new;
      SumThree(layout);
    }

    method ReservePartition(idx: nat, len: u32) returns (ok: bool)
      requires Valid()
      modifies this
      ensures Valid()
      ensures ok <==> old(MayReserve(layout, idx))
      ensures ok ==> layout == old(layout)[idx := len] && buffer == old(buffer) + seq(len, _ => 0)
      ensures !ok ==> layout == old(layout) && buffer == old(buffer)
    {
      if idx >= |layout| || layout[idx] != 0 {
        return false;
      }
      for k := 0 to idx
        invariant forall l :: 0 <= l < k ==> layout[l] != 0
      {
        if layout[k] == 0 {
          return false;
        }
      }
      for k := idx to |layout|
        invariant forall l :: idx <= l < k ==> layout[l] == 0
      {
        if layout[k] != 0 {
          return false;
        }
      }
      SumThree(layout);
      buffer := buffer + seq(len, _ => 0);
      layout := layout[idx := len];
      SumThree(layout);
      return true;
    }

    /** partition_window, filled with `bytes`; where it starts is summed in 32 bits. */
    method WritePartition(idx: nat, bytes: seq<byte>) returns (fits: bool)
      requires Valid() && idx < PARTS && |bytes| == layout[idx]
      modifies this`buffer
      ensures Valid()
      ensures fits <==> Sum(layout[..idx]) < TWO32
      ensures var start := Sum(layout[..idx]);
              && start + |bytes| <= |old(buffer)|
              && buffer == if fits then old(buffer)[..start] + bytes + old(buffer)[start + |bytes|..] else old(buffer)
    {
      SumThree(layout);
      var start := Sum(layout[..idx]);
      if start >= TWO32 {
        return false;
      }
      buffer := buffer[..start] + bytes + buffer[start + |bytes|..];
      return true;
    }
  }

  lemma SumPrefix(layout: seq<nat>, k: nat)
    requires k < |layout|
    ensures Sum(layout[..k + 1]) == Sum(layout[..k]) + layout[k]
  {
    assert layout[..k + 1][..k] == layout[..k];
  }

  lemma {:induction false} SumThree(layout: seq<nat>)
    requires |layout| == PARTS
    ensures Sum(layout) == layout[0] + layout[1] + layout[2]
    ensures Sum(layout[..0]) == 0 && Sum(layout[..1]) == layout[0] && Sum(layout[..2]) == layout[0] + layout[1]
  {
    SumPrefix(layout, 0);
    SumPrefix(layout, 1);
    SumPrefix(layout, 2);
    assert layout[..3] == layout;
  }

  datatype Stage = PayloadNext | HeaderNext | FinalPayloadExt

  /** Overflow is a sum that does not fit 32 bits: a panic, or a wrong window where sums are not checked. */
  datatype Write = Done | Refused | Overflow

  /** The three-step writer for a header of N bytes. */
  class SecureMessagePacket {
    const N: u32
    var stage: Stage
    const inner: PartitionedSecBuffer

    ghost predicate Valid()
      reads this, inner
    {
      && inner.Valid()
      && inner.layout[HEADER_PART] == N && inner.layout[PAYLOAD_EXT] == 0
      && (stage == PayloadNext ==> inner.layout[PAYLOAD_PART] == 0)
    }

    constructor (n: u32)
      ensures Valid() && N == n && stage == PayloadNext && fresh(inner)
      ensures inner.layout == [n as nat, 0, 0] && inner.buffer == seq(n, _ => 0)
    {
      N := n;
      stage := PayloadNext;
      inner := new PartitionedSecBuffer();
      new;
      var ok := inner.ReservePartition(HEADER_PART, n);
    }

    method WritePayload(payload: seq<byte>) returns (r: Write)
      requires Valid() && |payload| < TWO32
      modifies this`stage, inner
      ensures Valid()
      ensures r == Refused <==> old(stage) != PayloadNext || (N == 0 && |payload| + LENGTH_FIELD < TWO32)
      ensures r == Overflow <==> old(stage) == PayloadNext && |payload| + LENGTH_FIELD >= TWO32
      ensures r == Done ==> stage == HeaderNext && inner.layout[PAYLOAD_PART] == |payload| + LENGTH_FIELD
                            && inner.buffer == old(inner.buffer) + BigEndian(|payload|, LENGTH_FIELD) + payload
      ensures r != Done ==> stage == old(stage) && inner.buffer == old(inner.buffer) && inner.layout == old(inner.layout)
    {
      if stage != PayloadNext {
        return Refused;
      }
      if |payload| + LENGTH_FIELD >= TWO32 {
        return Overflow;
      }
      SumThree(inner.layout);
      var reserved := inner.ReservePartition(PAYLOAD_PART, |payload| + LENGTH_FIELD);
      if !reserved {
        return Refused;
      }
      SumThree(inner.layout);
      var fits := inner.WritePartition(PAYLOAD_PART, BigEndian(|payload|, LENGTH_FIELD) + payload);
      stage := HeaderNext;
      return Done;
    }

    method WriteHeader(header: seq<byte>) returns (r: Write)
      requires Valid() && |header| == N
      modifies this`stage, inner
      ensures Valid() && inner.layout == old(inner.layout)
      ensures r == Done <==> old(stage) == HeaderNext
      ensures r == Done ==> stage == FinalPayloadExt && |old(inner.buffer)| >= N as int
                            && inner.buffer == header + old(inner.buffer)[N..]
      ensures r != Done ==> r == Refused && stage == old(stage) && inner.buffer == old(inner.buffer)
    {
      if stage != HeaderNext {
        return Refused;
      }
      SumThree(inner.layout);
      var fits := inner.WritePartition(HEADER_PART, header);
      stage := FinalPayloadExt;
      return Done;
    }

    method WritePayloadExtension(ext: seq<byte>) returns (r: Write, packet: seq<byte>)
      requires Valid() && |ext| < TWO32
      modifies inner
      ensures r == Refused <==> old(stage) != FinalPayloadExt || N == 0 || old(inner.layout[PAYLOAD_PART]) == 0
      ensures r == Overflow <==> old(stage) == FinalPayloadExt && N != 0 && old(inner.layout[PAYLOAD_PART]) != 0
                                 && N + old(inner.layout[PAYLOAD_PART]) >= TWO32
      ensures r == Done ==> packet == old(inner.buffer) + ext
    {
      packet := [];
      if stage != FinalPayloadExt {
        return Refused, [];
      }
      SumThree(inner.layout);
      var reserved := inner.ReservePartition(PAYLOAD_EXT, |ext|);
      if !reserved {
        return Refused, [];
      }
      SumThree(inner.layout);
      var fits := inner.WritePartition(PAYLOAD_EXT, ext);
      if !fits {
        return Overflow, [];
      }
      return Done, inner.buffer;
    }
  }

  /** decompose_payload_raw: payload and extension of what follows the header */
  function Decomposed(raw: seq<byte>): Result<(seq<byte>, seq<byte>)>
  {
    if |raw| < LENGTH_FIELD then Err else
    var len := Value(raw[..LENGTH_FIELD]);
    var rest := raw[LENGTH_FIELD..];
    if |rest| < len then Err else Ok((rest[..len], rest[len..]))
  }

  lemma Front(a: seq<byte>, b: seq<byte>)
    ensures (a + b)[..|a|] == a && (a + b)[|a|..] == b
  {
  }

  lemma {:induction false} DecomposesAs(payload: seq<byte>, ext: seq<byte>)
    requires |payload| < TWO32
    ensures Decomposed(BigEndian(|payload|, LENGTH_FIELD) + (payload + ext)) == Ok((payload, ext))
  {
    WordSizes();
    var field := BigEndian(|payload|, LENGTH_FIELD);
    ValueOfBigEndian(|payload|, LENGTH_FIELD);
    Front(field, payload + ext);
    Front(payload, ext);
  }

  /** Bytes come apart into payload and extension if and only if they are these two behind the payload's length. */
  lemma {:induction false} DecomposesExactly(raw: seq<byte>, payload: seq<byte>, ext: seq<byte>)
    ensures Decomposed(raw) == Ok((payload, ext))
            <==> |payload| < TWO32 && raw == BigEndian(|payload|, LENGTH_FIELD) + (payload + ext)
  {
    if Decomposed(raw) == Ok((payload, ext)) {
      WordSizes();
      BigEndianOfValue(raw[..LENGTH_FIELD]);
      ValueBelow(raw[..LENGTH_FIELD]);
      assert raw == raw[..LENGTH_FIELD] + raw[LENGTH_FIELD..];
      assert raw[LENGTH_FIELD..] == payload + ext;
    }
    if |payload| < TWO32 && raw == BigEndian(|payload|, LENGTH_FIELD) + (payload + ext) {
      DecomposesAs(payload, ext);
    }
  }

  /** Bytes that do not come apart are short of the length field or of what it announces. */
  lemma {:induction false} MalformedExactly(raw: seq<byte>)
    ensures Decomposed(raw).Err? <==> |raw| < LENGTH_FIELD || |raw| - LENGTH_FIELD < Value(raw[..LENGTH_FIELD])
  {
  }

  /** The buffer as the three writes leave it. */
  lemma Reads(header: seq<byte>, zeros: seq<byte>, field: seq<byte>, payload: seq<byte>, ext: seq<byte>)
    requires |zeros| == |header|
    ensures var packet := header + (zeros + field + payload)[|header|..] + ext;
            packet[..|header|] == header && packet[|header|..] == field + (payload + ext)
  {
    assert (zeros + field + payload)[|header|..] == field + payload;
    Front(header, field + (payload + ext));
    assert header + (field + payload) + ext == header + (field + (payload + ext));
  }

  lemma {:induction false} ReadsBack(header: seq<byte>, zeros: seq<byte>, payload: seq<byte>, ext: seq<byte>)
    requires |payload| < TWO32 && |zeros| == |header|
    ensures var packet := header + (zeros + BigEndian(|payload|, LENGTH_FIELD) + payload)[|header|..] + ext;
            packet[..|header|] == header && Decomposed(packet[|header|..]) == Ok((payload, ext))
  {
    Reads(header, zeros, BigEndian(|payload|, LENGTH_FIELD), payload, ext);
    DecomposesAs(payload, ext);
  }

  /**
   Written in the prescribed order a packet takes itself apart again. It is made exactly when there is a
   header, and header, length field and payload together fit 32 bits.
   */
  method BuildPacket(header: seq<byte>, payload: seq<byte>, ext: seq<byte>) returns (r: Write, packet: seq<byte>)
    requires |header| < TWO32 && |payload| < TWO32 && |ext| < TWO32
    ensures r == Done <==> header != [] && |header| + |payload| + LENGTH_FIELD < TWO32
    ensures r == Refused <==> header == [] && |payload| + LENGTH_FIELD < TWO32
    ensures r == Done ==> |packet| >= |header| && packet[..|header|] == header
                          && Decomposed(packet[|header|..]) == Ok((payload, ext))
  {
    var p := new SecureMessagePacket(|header|);
    r := p.WritePayload(payload);
    if r != Done {
      return r, [];
    }
    r := p.WriteHeader(header);
    r, packet := p.WritePayloadExtension(ext);
    ReadsBack(header, seq(|header|, _ => 0), payload, ext);
  }
}
