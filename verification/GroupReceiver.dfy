/**
 The receiving end of a group (citadel_crypt/src/scramble/crypt_splitter.rs, GroupReceiver): packets
 fill the ciphertext buffer of their wave, a full wave is decrypted into the plaintext slab.
 */
module GroupReceivers {
  import opened Words
  import opened GroupLayout

  datatype Status =
    | GroupComplete(wave: nat)
    | InsertSuccess
    | AlreadyReceived
    | CorruptWave
    | WaveComplete(wave: nat)
    | InvalidPacket

  datatype Store = Store(packetsReceived: nat, packetsInWave: nat, bytesWritten: nat, buffer: seq<byte>)

  function Zeros(n: nat): seq<byte>
  {
    seq(n, _ => 0)
  }

  function NewStore(cfg: Config, wave: nat): Store
  {
    if wave == cfg.waveCount - 1 then
      var count := cfg.packetsInLastWave;
      Store(0, count, 0, Zeros((if count == 0 then 0 else count - 1) * cfg.maxPayload + cfg.lastPayload))
    else Store(0, cfg.maxPacketsPerWave, 0, Zeros(cfg.maxPayload * cfg.maxPacketsPerWave))
  }

  /** Overwrites s from `at` on. */
  function Pasted(s: seq<byte>, at: nat, bytes: seq<byte>): (r: seq<byte>)
    requires at + |bytes| <= |s|
    ensures |r| == |s|
  {
    s[..at] + bytes + s[at + |bytes|..]
  }

  /** get_ciphertext_insertion_range and the copy; None where slicing would panic. */
  function Insert(cfg: Config, st: Store, n: nat, packet: seq<byte>): Option<Store>
  {
    if cfg.maxPacketsPerWave == 0 then None else
    var len := |st.buffer|;
    var isLast := n == cfg.packetsNeeded - 1;
    if isLast && cfg.lastPayload > len then None else
    var start := if isLast then len - cfg.lastPayload else cfg.maxPayload * (n % cfg.maxPacketsPerWave);
    var end := if isLast then len else cfg.maxPayload + start;
    if end > len || start + |packet| > end then None
    else Some(Store(st.packetsReceived + 1, st.packetsInWave, st.bytesWritten + |packet|, Pasted(st.buffer, start, packet)))
  }

  /**
   Whatever packet comes: where it goes is fixed by its number alone, the last of all at the end of the
   buffer; it is taken exactly if that place is in the buffer and long enough, and only that place changes.
   */
  lemma InsertedExactly(cfg: Config, st: Store, n: nat, packet: seq<byte>)
    requires cfg.maxPacketsPerWave >= 1
    ensures var room := if n == cfg.packetsNeeded - 1 then cfg.lastPayload else cfg.maxPayload;
            var at := if n == cfg.packetsNeeded - 1 then |st.buffer| - room else (n % cfg.maxPacketsPerWave) * cfg.maxPayload;
            var out := Insert(cfg, st, n, packet);
            && (out.Some? <==> 0 <= at && at + room <= |st.buffer| && |packet| <= room)
            && (out.Some? ==>
                  && out.value.packetsReceived == st.packetsReceived + 1 && out.value.packetsInWave == st.packetsInWave
                  && out.value.bytesWritten == st.bytesWritten + |packet| && |out.value.buffer| == |st.buffer|
                  && (forall k :: 0 <= k < |st.buffer| ==>
                        out.value.buffer[k] == if at <= k < at + |packet| then packet[k - at] else st.buffer[k]))
  {
    assert cfg.maxPayload * (n % cfg.maxPacketsPerWave) == (n % cfg.maxPacketsPerWave) * cfg.maxPayload;
  }

  /** The indices from `lo` up to `hi` whose flag is not set. */
  function Gaps(flags: seq<bool>, lo: nat, hi: nat): seq<nat>
    requires lo <= hi <= |flags|
    decreases hi
  {
    if lo == hi then []
    else Gaps(flags, lo, hi - 1) + if flags[hi - 1] then [] else [hi - 1]
  }

  datatype Receiver = Receiver(
    cfg: Config,
    slab: seq<byte>,
    stores: map<nat, Store>,
    packetsSeen: seq<bool>,
    wavesSeen: seq<bool>,
    lowest: int,
    last: int)
  {
    /** The wave is decrypted: copy it out and drop its store. */
    function Finished(wave: nat, plain: seq<byte>): Option<(Receiver, Status)>
    {
      var start := wave * cfg.maxPlaintextWave;
      if start + |plain| > |slab| then None else
      var r := this.(slab := Pasted(slab, start, plain), stores := stores - {wave});
      if r.stores == map[] then Some((r, GroupComplete(wave)))
      else if wave >= |wavesSeen| then None
      else Some((r.(lowest := if wave - 1 == lowest then wave else lowest,
                    wavesSeen := wavesSeen[wave := true],
                    last := wave), WaveComplete(wave)))
    }

    /** get_missing_waves */
    function Missing(): Option<seq<nat>>
      requires lowest >= 0 ==> lowest <= last <= |wavesSeen|
    {
      if lowest < 0 then None else
      var gaps := Gaps(wavesSeen, lowest, last);
      if gaps == [] then None else Some(gaps)
    }

    /** on_packet_received; None where the source would panic. */
    function Received(c: Cipher, n: nat, wave: nat, packet: seq<byte>): Option<(Receiver, Status)>
    {
      if n >= |packetsSeen| then Some((this, InvalidPacket))
      else if packetsSeen[n] then Some((this, AlreadyReceived)) else
      var r := this.(packetsSeen := packetsSeen[n := true]);
      if wave !in stores then Some((r, InvalidPacket)) else
      var inserted := Insert(cfg, stores[wave], n, packet);
      if inserted.None? then None else
      var st := inserted.value;
      var r' := r.(stores := stores[wave := st]);
      if st.packetsReceived != st.packetsInWave then Some((r', InsertSuccess))
      else if st.bytesWritten > |st.buffer| then None else
      match c.decrypt(wave, st.buffer[..st.bytesWritten])
      case None => Some((r', CorruptWave))
      case Some(plain) => r'.Finished(wave, plain)
    }
  }

  function Fresh(cfg: Config): Receiver
  {
    Receiver(cfg, Zeros(cfg.plaintextLength), map i: nat | i < cfg.waveCount :: NewStore(cfg, i),
             seq(cfg.packetsNeeded, _ => false), seq(cfg.waveCount, _ => false), -1, -1)
  }

  class GroupReceiver {
    const cfg: Config
    const slab: array<byte>
    var stores: map<nat, Store>
    var packetsSeen: seq<bool>
    var wavesSeen: seq<bool>
    var lowest: int
    var last: int

    ghost function View(): Receiver
      reads this, slab
    {
      Receiver(cfg, slab[..], stores, packetsSeen, wavesSeen, lowest, last)
    }

    constructor (config: Config)
      ensures View() == Fresh(config) && fresh(slab)
    {
      cfg := config;
      var buffer := new byte[config.plaintextLength](_ => 0);
      slab := buffer;
      packetsSeen := seq(config.packetsNeeded, _ => false);
      wavesSeen := seq(config.waveCount, _ => false);
      lowest, last := -1, -1;
      stores := map[];
      new;
      for wave := 0 to config.waveCount
        invariant stores == map i: nat | i < wave :: NewStore(config, i)
        invariant cfg == config && slab == buffer && slab[..] == Zeros(config.plaintextLength)
        invariant packetsSeen == seq(config.packetsNeeded, _ => false)
        invariant wavesSeen == seq(config.waveCount, _ => false)
        invariant lowest == last == -1
      {
        stores := stores[wave := NewStore(config, wave)];
      }
    }

    method OnPacketReceived(c: Cipher, n: nat, wave: u32, packet: seq<byte>) returns (status: Status)
      requires View().Received(c, n, wave, packet).Some?
      modifies this, slab
      ensures (View(), status) == old(View().Received(c, n, wave, packet).value)
    {
      if n >= |packetsSeen| {
        return InvalidPacket;
      }
      if packetsSeen[n] {
        return AlreadyReceived;
      }
      packetsSeen := packetsSeen[n := true];
      if wave !in stores {
        return InvalidPacket;
      }
      var store := Insert(cfg, stores[wave], n, packet).value;
      stores := stores[wave := store];
      if store.packetsReceived != store.packetsInWave {
        return InsertSuccess;
      }
      match c.decrypt(wave, store.buffer[..store.bytesWritten]) {
        case None => return CorruptWave;
        case Some(plain) =>
          CopyOut(wave * cfg.maxPlaintextWave, plain);
          stores := stores - {wave as nat};
          if stores == map[] {
            return GroupComplete(wave);
          }
          if wave - 1 == lowest {
            lowest := wave;
          }
          wavesSeen := wavesSeen[wave := true];
          last := wave;
          return WaveComplete(wave);
      }
    }

    /** copy_from_slice into the slab */
    method CopyOut(at: nat, bytes: seq<byte>)
      requires at + |bytes| <= slab.Length
      modifies slab
      ensures slab[..] == Pasted(old(slab[..]), at, bytes)
    {
      for k := 0 to |bytes|
        invariant slab[..] == Pasted(old(slab[..]), at, bytes[..k])
      {
        slab[at + k] := bytes[k];
        assert Pasted(old(slab[..]), at, bytes[..k + 1]) == Pasted(old(slab[..]), at, bytes[..k])[at + k := bytes[k]];
      }
      assert bytes[..|bytes|] == bytes;
    }

    method GetMissingWaves() returns (missing: Option<seq<nat>>)
      requires lowest >= 0 ==> lowest <= last <= |wavesSeen|
      ensures missing == View().Missing()
    {
      if lowest < 0 {
        return None;
      }
      var waves: seq<nat> := [];
      for wave := lowest to last
        invariant waves == Gaps(wavesSeen, lowest, wave)
      {
        if !wavesSeen[wave] {
          waves := waves + [wave];
        }
      }
      return if waves == [] then None else Some(waves);
    }
  }
}
