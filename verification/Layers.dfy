/**
 The message layers of a stacked ratchet (citadel_crypt/src/stacked_ratchet.rs): a packet of level n is
 encrypted by layers 0..n in turn, each adding a packet identifier of its own, and opened in reverse.
 */
module Layers {
  import opened Words
  import opened Bytes
  import opened AntiReplay

  const PID_LEN: nat := 8

  /** One layer's key with the nonce its entropy bank gives: the header is authenticated data. */
  datatype Layer = Layer(seal: (seq<byte>, seq<byte>) -> seq<byte>, open: (seq<byte>, seq<byte>) -> Option<seq<byte>>)

  ghost predicate Faithful(l: Layer)
  {
    forall h: seq<byte>, p: seq<byte> :: l.open(h, l.seal(h, p)) == Some(p)
  }

  /** The payload once layers 0..n have encrypted it. */
  function Sealed(layers: seq<Layer>, n: nat, header: seq<byte>, payload: seq<byte>, pids: seq<u64>): seq<byte>
    requires n <= |layers| && n <= |pids|
  {
    if n == 0 then payload
    else layers[n - 1].seal(header, Sealed(layers, n - 1, header, payload, pids) + BigEndian(pids[n - 1], PID_LEN))
  }

  /** Layers n..0 undone; an error stops at the layer it comes from. */
  function Opened(layers: seq<Layer>, n: nat, header: seq<byte>, body: seq<byte>, hist: seq<History>)
    : (r: (Result<seq<byte>>, seq<History>))
    requires n <= |layers| == |hist|
    ensures |r.1| == |hist|
  {
    if n == 0 then (Ok(body), hist) else
    match layers[n - 1].open(header, body)
    case None => (Err, hist)
    case Some(plain) =>
      if |plain| < PID_LEN then (Err, hist) else
      var start := |plain| - PID_LEN;
      var (h, accepted) := hist[n - 1].Received(PidOf(plain[start..]));
      if !accepted then (Err, hist[n - 1 := h]) else Opened(layers, n - 1, header, plain[..start], hist[n - 1 := h])
  }

  function PidOf(bytes: seq<byte>): u64
    requires |bytes| == PID_LEN
  {
    ValueBound(bytes);
    Value(bytes)
  }

  lemma {:induction false} ValueBound(bytes: seq<byte>)
    requires |bytes| == PID_LEN
    ensures Value(bytes) < TWO64
  {
    ValueBelow(bytes);
    WordSizes();
  }

  class StackedRatchet {
    const layers: seq<Layer>
    var counters: seq<u64>
    var histories: seq<History>

    ghost predicate Valid()
      reads this
    {
      |counters| == |histories| == |layers|
    }

    constructor (layers: seq<Layer>)
      ensures Valid() && this.layers == layers
      ensures counters == seq(|layers|, _ => 0) && histories == seq(|layers|, _ => History(0, {}))
    {
      this.layers := layers;
      counters := seq(|layers|, _ => 0);
      histories := seq(|layers|, _ => History(0, {}));
    }

    /** verify_level and the loop over the layers; the header stays as it is. */
    method ProtectMessagePacket(level: nat, headerLen: nat, packet: seq<byte>) returns (r: Result<seq<byte>>)
      requires Valid() && headerLen <= |packet|
      modifies this`counters
      ensures Valid()
      ensures r.Err? <==> level >= |layers|
      ensures r.Ok? ==> r.value == packet[..headerLen]
                          + Sealed(layers, level + 1, packet[..headerLen], packet[headerLen..], old(counters))
      ensures counters == Counted(old(counters), if r.Ok? then level + 1 else 0)
    {
      if level >= |layers| {
        return Err;
      }
      var header, payload := packet[..headerLen], packet[headerLen..];
      ghost var was := counters;
      for n := 0 to level + 1
        invariant Valid() && counters == Counted(was, n)
        invariant payload == Sealed(layers, n, header, packet[headerLen..], was)
      {
        var pid := counters[n];
        counters := counters[n := Succ64(pid)];
        payload := layers[n].seal(header, payload + BigEndian(pid, PID_LEN));
      }
      return Ok(header + payload);
    }

    method ValidateMessagePacket(level: nat, header: seq<byte>, body: seq<byte>) returns (r: Result<seq<byte>>)
      requires Valid()
      modifies this`histories
      ensures Valid()
      ensures level >= |layers| ==> r == Err && histories == old(histories)
      ensures level < |layers| ==> (r, histories) == Opened(layers, level + 1, header, body, old(histories))
    {
      if level >= |layers| {
        return Err;
      }
      var payload, n: nat := body, level + 1;
      while n > 0
        invariant Valid() && n <= |layers|
        invariant Opened(layers, n, header, payload, histories) == Opened(layers, level + 1, header, body, old(histories))
      {
        var plain := layers[n - 1].open(header, payload);
        if plain.None? || |plain.value| < PID_LEN {
          return Err;
        }
        var start := |plain.value| - PID_LEN;
        var (h, accepted) := histories[n - 1].Received(PidOf(plain.value[start..]));
        histories := histories[n - 1 := h];
        if !accepted {
          return Err;
        }
        payload := plain.value[..start];
        n := n - 1;
      }
      return Ok(payload);
    }
  }

  /** The first n counters moved on by one. */
  function Counted(counters: seq<u64>, n: nat): seq<u64>
    requires n <= |counters|
  {
    seq(|counters|, (k: int) requires 0 <= k < |counters| => if k < n then Succ64(counters[k]) else counters[k])
  }
}
