/**
 How a group of plaintext becomes waves and packets (citadel_crypt/src/scramble/crypt_splitter.rs),
 for the ciphers that lengthen their input by 16 bytes (AES-256-GCM-SIV, XChaCha20-Poly1305).
 */
module GroupLayout {
  import opened Words
  import opened Nonces
  import opened Arith

  const CIPHER_OVERHEAD: nat := 16
  /** get_max_packet_size: 480 and the overhead; the security exponent is capped at Standard */
  const MAX_PAYLOAD: nat := 496

  /** An authenticated cipher under one key, with the nonce given by number. */
  datatype Cipher = Cipher(encrypt: (nat, seq<byte>) -> seq<byte>, decrypt: (nat, seq<byte>) -> Option<seq<byte>>)

  ghost predicate Correct(c: Cipher)
  {
    forall n: nat, p: seq<byte> ::
      && |c.encrypt(n, p)| == |p| + CIPHER_OVERHEAD
      && c.decrypt(n, c.encrypt(n, p)) == Some(p)
  }

  /** There are such ciphers. */
  lemma CorrectExists() returns (c: Cipher)
    ensures Correct(c)
  {
    var tag: seq<byte> := seq(CIPHER_OVERHEAD, _ => 0);
    c := Cipher((n, p) => p + tag, (n, s) => if |s| < CIPHER_OVERHEAD then None else Some(s[..|s| - CIPHER_OVERHEAD]));
    forall n: nat, p: seq<byte>
      ensures |c.encrypt(n, p)| == |p| + CIPHER_OVERHEAD && c.decrypt(n, c.encrypt(n, p)) == Some(p)
    {
      assert (p + tag)[..|p|] == p;
    }
  }

  /** The cipher of one group, indexed by wave: calculate_nonce_version gives the nonce's number. */
  function ForGroup(c: Cipher, groupId: nat): Cipher
  {
    Cipher((wave, p) => c.encrypt(NonceVersion(wave, groupId), p), (wave, p) => c.decrypt(NonceVersion(wave, groupId), p))
  }

  lemma ForGroupCorrect(c: Cipher, groupId: nat)
    requires Correct(c)
    ensures Correct(ForGroup(c, groupId))
  {
    var g := ForGroup(c, groupId);
    forall n: nat, p: seq<byte>
      ensures |g.encrypt(n, p)| == |p| + CIPHER_OVERHEAD && g.decrypt(n, g.encrypt(n, p)) == Some(p)
    {
      assert g.encrypt(n, p) == c.encrypt(NonceVersion(n, groupId), p);
    }
  }

  datatype Config = Config(
    packetsNeeded: nat,
    maxPacketsPerWave: nat,
    plaintextLength: nat,
    maxPayload: nat,
    lastPayload: nat,
    fullWaves: nat,
    partialWaves: nat,
    waveCount: nat,
    maxPlaintextWave: nat,
    lastPlaintextWave: nat,
    packetsInLastWave: nat,
    groupId: nat)

  function PlainPerWave(width: nat): nat
    requires width >= 1
  {
    MAX_PAYLOAD * width - CIPHER_OVERHEAD
  }

  function NewRefresh(groupId: nat, length: nat, full: nat, partial: nat, perWave: nat, lastBytes: nat,
                      width: nat, lastCiphertext: nat): Config
  {
    var rem := lastCiphertext % MAX_PAYLOAD;
    var inLast := DivCeil(lastCiphertext, MAX_PAYLOAD);
    Config(full * width + inLast, width, length, MAX_PAYLOAD, if rem == 0 then MAX_PAYLOAD else rem,
           full, partial, full + partial, perWave, lastBytes, inLast, groupId)
  }

  /** generate_scrambler_metadata; None is the "Empty input" error. */
  function Metadata(length: nat, width: nat, groupId: nat): (cfg: Option<Config>)
    requires width >= 1
    ensures cfg.Some? <==> length > 0
    ensures cfg.Some? ==> cfg.value.plaintextLength == length && cfg.value.maxPlaintextWave == PlainPerWave(width)
                          && cfg.value.maxPacketsPerWave == width && cfg.value.maxPayload == MAX_PAYLOAD
                          && cfg.value.groupId == groupId
  {
    if length == 0 then None else
    var m := PlainPerWave(width);
    var (full, partial, lastBytes) :=
      if length < m then (0, 1, length % m)
      else if length % m == 0 then (length / m, 0, m)
      else (length / m, 1, length % m);
    var lastCiphertext := if partial != 0 then lastBytes + CIPHER_OVERHEAD else 0;
    Some(NewRefresh(groupId, length, full, partial, m, lastBytes, width, lastCiphertext))
  }

  function Chunks(s: seq<byte>, size: nat): seq<seq<byte>>
    requires size > 0
    decreases |s|
  {
    if s == [] then []
    else if |s| <= size then [s]
    else [s[..size]] + Chunks(s[size..], size)
  }

  function Min(a: nat, b: nat): nat { if a < b then a else b }

  lemma {:induction false} ChunksOfRest(s: seq<byte>, size: nat, k: nat)
    requires size > 0 && k > 0 && |s| > size && k - 1 < |Chunks(s[size..], size)|
    ensures k < |Chunks(s, size)| && Chunks(s, size)[k] == Chunks(s[size..], size)[k - 1]
  {
  }

  lemma {:induction false} FirstChunk(s: seq<byte>, size: nat)
    requires size > 0 && s != []
    ensures 0 < |Chunks(s, size)| && Chunks(s, size)[0] == s[0..Min(size, |s|)]
  {
    assert s[0..|s|] == s;
  }

  lemma {:induction false} ChunkFrom(s: seq<byte>, size: nat, k: nat, at: nat)
    requires size > 0 && at == k * size && at < |s|
    ensures k < |Chunks(s, size)| && Chunks(s, size)[k] == s[at..Min(at + size, |s|)]
    decreases k
  {
    if k == 0 {
      FirstChunk(s, size);
    } else {
      ProductStep(k - 1, size);
      ChunkFrom(s[size..], size, k - 1, at - size);
      ChunksOfRest(s, size, k);
      SliceOfRest(s, size, at - size, Min(at, |s| - size));
    }
  }

  lemma {:induction false} ChunkAt(s: seq<byte>, size: nat, k: nat)
    requires size > 0 && k * size < |s|
    ensures k < |Chunks(s, size)| && Chunks(s, size)[k] == s[k * size..Min(k * size + size, |s|)]
  {
    ChunkFrom(s, size, k, k * size);
  }

  lemma {:induction false} ChunkCount(s: seq<byte>, size: nat)
    requires size > 0
    ensures |Chunks(s, size)| == DivCeil(|s|, size)
    decreases |s|
  {
    if |s| > size {
      ChunkCount(s[size..], size);
    }
  }

  /** Packets that carry `size` bytes of plaintext encrypted together. */
  function PacketCount(size: nat): nat
  {
    DivCeil(size + CIPHER_OVERHEAD, MAX_PAYLOAD)
  }

  /** scramble_encrypt_wave: the wave's ciphertext in packets numbered on from wave * width. */
  function WavePackets(c: Cipher, width: nat, wave: nat, text: seq<byte>): seq<(nat, seq<byte>)>
  {
    var parts := Chunks(c.encrypt(wave, text), MAX_PAYLOAD);
    seq(|parts|, (k: int) requires 0 <= k < |parts| => (wave * width + k, parts[k]))
  }

  /** par_scramble_encrypt_group: the packets of the first k waves. */
  function GroupPackets(c: Cipher, width: nat, waves: seq<seq<byte>>, k: nat): seq<(nat, seq<byte>)>
    requires k <= |waves|
  {
    if k == 0 then [] else GroupPackets(c, width, waves, k - 1) + WavePackets(c, width, k - 1, waves[k - 1])
  }

  /** Waves of `width` full packets each, the last possibly of fewer and with a shorter end. */
  ghost predicate Shaped(waves: seq<seq<byte>>, width: nat)
  {
    && |waves| >= 1 && 1 <= PacketCount(|waves[|waves| - 1]|) <= width
    && forall i :: 0 <= i < |waves| - 1 ==> PacketCount(|waves[i]|) == width && LastPayload(|waves[i]|) == MAX_PAYLOAD
  }

  /** The bytes of packet k of a ciphertext. */
  function Slot(ciphertext: seq<byte>, k: nat): seq<byte>
    requires k * MAX_PAYLOAD <= |ciphertext|
  {
    ciphertext[k * MAX_PAYLOAD..Min(k * MAX_PAYLOAD + MAX_PAYLOAD, |ciphertext|)]
  }

  function LastPayload(size: nat): nat
  {
    var rem := (size + CIPHER_OVERHEAD) % MAX_PAYLOAD;
    if rem == 0 then MAX_PAYLOAD else rem
  }

  /** Size of packet j of a wave: full unless it is the wave's last. */
  lemma SlotSize(ciphertext: seq<byte>, size: nat, j: nat)
    requires |ciphertext| == size + CIPHER_OVERHEAD && j < PacketCount(size)
    ensures j * MAX_PAYLOAD < |ciphertext|
    ensures |Slot(ciphertext, j)| == if j == PacketCount(size) - 1 then LastPayload(size) else MAX_PAYLOAD
  {
    DivCeilIs(size + CIPHER_OVERHEAD, MAX_PAYLOAD);
  }

  lemma WavePacketAt(c: Cipher, width: nat, wave: nat, text: seq<byte>, j: nat)
    requires Correct(c) && j < PacketCount(|text|)
    ensures var ps := WavePackets(c, width, wave, text);
            && |ps| == PacketCount(|text|) && j * MAX_PAYLOAD < |c.encrypt(wave, text)|
            && ps[j] == (wave * width + j, Slot(c.encrypt(wave, text), j))
  {
    var cipher := c.encrypt(wave, text);
    SlotSize(cipher, |text|, j);
    ChunkCount(cipher, MAX_PAYLOAD);
    ChunkAt(cipher, MAX_PAYLOAD, j);
  }

  lemma {:induction false} EmittedCount(c: Cipher, width: nat, waves: seq<seq<byte>>, k: nat)
    requires Correct(c) && Shaped(waves, width) && k <= |waves|
    ensures |GroupPackets(c, width, waves, k)| == if k < |waves| then k * width else (k - 1) * width + PacketCount(|waves[k - 1]|)
  {
    if k > 0 {
      EmittedCount(c, width, waves, k - 1);
      ChunkCount(c.encrypt(k - 1, waves[k - 1]), MAX_PAYLOAD);
      ProductStep(k - 1, width);
    }
  }

  /** Packet j of wave i is at i * width + j and carries that number. */
  lemma {:induction false} EmittedAt(c: Cipher, width: nat, waves: seq<seq<byte>>, k: nat, i: nat, j: nat)
    requires Correct(c) && Shaped(waves, width) && i < k <= |waves| && j < PacketCount(|waves[i]|)
    ensures var ps := GroupPackets(c, width, waves, k);
            var cipher := c.encrypt(i, waves[i]);
            && i * width + j < |ps| && j * MAX_PAYLOAD < |cipher|
            && ps[i * width + j] == (i * width + j, Slot(cipher, j))
  {
    if i < k - 1 {
      EmittedAt(c, width, waves, k - 1, i, j);
    } else {
      EmittedCount(c, width, waves, i);
      WavePacketAt(c, width, i, waves[i], j);
    }
  }

  /** Every sequence number below the total is packet n % width of wave n / width. */
  lemma Located(waves: seq<seq<byte>>, width: nat, n: nat)
    requires Shaped(waves, width) && n < (|waves| - 1) * width + PacketCount(|waves[|waves| - 1]|)
    ensures n / width < |waves| && n % width < PacketCount(|waves[n / width]|)
    ensures n == (n / width) * width + n % width
  {
    var i, j := n / width, n % width;
    assert n == i * width + j;
    if i >= |waves| {
      ProductMonotone(|waves|, i, width);
      ProductStep(|waves| - 1, width);
    }
  }

  // ---- The configuration describes what is sent ----

  /** The last chunk holds the remainder, or a whole chunk when there is none. */
  lemma {:induction false} LastChunk(text: seq<byte>, size: nat)
    requires size > 0 && text != []
    ensures var cs := Chunks(text, size);
            && |cs| >= 1
            && (forall i :: 0 <= i < |cs| - 1 ==> |cs[i]| == size)
            && |cs| == (if |text| % size == 0 then |text| / size else |text| / size + 1)
            && |cs[|cs| - 1]| == (if |text| % size == 0 then size else |text| % size)
    decreases |text|
  {
    if |text| < size {
      DivUnique(|text|, size, 0, |text|);
    } else if |text| == size {
      DivUnique(|text|, size, 1, 0);
    } else {
      DivStep(|text|, size);
      LastChunk(text[size..], size);
    }
  }

  /** A whole wave fills `width` packets exactly. */
  lemma WholeWave(width: nat)
    requires width >= 1
    ensures PacketCount(PlainPerWave(width)) == width && LastPayload(PlainPerWave(width)) == MAX_PAYLOAD
  {
    DivCeilUnique(MAX_PAYLOAD * width, MAX_PAYLOAD, width - 1, MAX_PAYLOAD);
  }

  lemma PacketCountMonotone(a: nat, b: nat)
    requires a <= b
    ensures 1 <= PacketCount(a) <= PacketCount(b)
  {
    DivCeilBounds(a + CIPHER_OVERHEAD, MAX_PAYLOAD);
    DivCeilBounds(b + CIPHER_OVERHEAD, MAX_PAYLOAD);
  }

  function Waves(plain: seq<byte>, width: nat): seq<seq<byte>>
    requires width >= 1
  {
    Chunks(plain, PlainPerWave(width))
  }

  /** What generate_scrambler_metadata says about the waves that are cut; `last` is the last one's size. */
  lemma ConfigDescribes(plain: seq<byte>, width: nat, groupId: nat)
    requires plain != [] && width >= 1
    ensures Metadata(|plain|, width, groupId).Some?
    ensures var cfg := Metadata(|plain|, width, groupId).value;
            var waves := Waves(plain, width);
            Shaped(waves, width) && cfg.waveCount == |waves|
    ensures var cfg := Metadata(|plain|, width, groupId).value;
            var waves := Waves(plain, width);
            var last := |waves[|waves| - 1]|;
            && cfg.packetsNeeded == (|waves| - 1) * width + PacketCount(last)
            && cfg.lastPlaintextWave == last && cfg.lastPayload == LastPayload(last)
            && cfg.fullWaves + cfg.partialWaves == |waves|
            && cfg.partialWaves == (if |plain| % PlainPerWave(width) == 0 then 0 else 1)
            && cfg.packetsInLastWave == if |plain| % PlainPerWave(width) == 0 then 0 else PacketCount(last)
  {
    var m := PlainPerWave(width);
    var waves := Waves(plain, width);
    LastChunk(plain, m);
    WholeWave(width);
    var last := |waves[|waves| - 1]|;
    PacketCountMonotone(last, m);
    if |plain| < m { DivUnique(|plain|, m, 0, |plain|); }
    DivCeilIs(last + CIPHER_OVERHEAD, MAX_PAYLOAD);
    ProductStep(|waves| - 1, width);
  }

  /** Sequence number n is packet n % width of wave n / width. */
  lemma EmittedIs(c: Cipher, width: nat, waves: seq<seq<byte>>, n: nat) returns (i: nat, j: nat)
    requires Correct(c) && Shaped(waves, width) && n < |GroupPackets(c, width, waves, |waves|)|
    ensures i == n / width && j == n % width && n == i * width + j
    ensures i < |waves| && j < PacketCount(|waves[i]|)
    ensures var ps := GroupPackets(c, width, waves, |waves|);
            var cipher := c.encrypt(i, waves[i]);
            && j * MAX_PAYLOAD < |cipher| && ps[n] == (n, Slot(cipher, j))
            && |ps[n].1| == if n == |ps| - 1 then LastPayload(|waves[|waves| - 1]|) else MAX_PAYLOAD
  {
    EmittedCount(c, width, waves, |waves|);
    Located(waves, width, n);
    i, j := n / width, n % width;
    EmittedAt(c, width, waves, |waves|, i, j);
    EmittedSize(c, width, waves, i, j);
    LastPlace(waves, width, i, j);
  }

  lemma LastPlace(waves: seq<seq<byte>>, width: nat, i: nat, j: nat)
    requires Shaped(waves, width) && i < |waves| && j < PacketCount(|waves[i]|)
    ensures i * width + j == (|waves| - 1) * width + PacketCount(|waves[|waves| - 1]|) - 1
            <==> i == |waves| - 1 && j == PacketCount(|waves[i]|) - 1
  {
    LastPacket(|waves|, width, PacketCount(|waves[|waves| - 1]|), i, j);
  }

  /** The sequence numbers sent are exactly 0..packetsNeeded, in full packets but for the last. */
  lemma {:induction false} PacketsCoverGroup(c: Cipher, plain: seq<byte>, width: nat, groupId: nat)
    requires Correct(c) && plain != [] && width >= 1
    ensures Metadata(|plain|, width, groupId).Some?
    ensures var cfg := Metadata(|plain|, width, groupId).value;
            var waves := Waves(plain, width);
            var ps := GroupPackets(c, width, waves, |waves|);
            && |ps| == cfg.packetsNeeded
            && (forall n :: 0 <= n < |ps| ==> ps[n].0 == n)
            && (forall n :: 0 <= n < |ps| ==> |ps[n].1| == if n == |ps| - 1 then cfg.lastPayload else cfg.maxPayload)
  {
    var waves := Waves(plain, width);
    var ps := GroupPackets(c, width, waves, |waves|);
    ConfigDescribes(plain, width, groupId);
    EmittedCount(c, width, waves, |waves|);
    forall n | 0 <= n < |ps|
      ensures ps[n].0 == n
      ensures |ps[n].1| == if n == |ps| - 1 then LastPayload(|waves[|waves| - 1]|) else MAX_PAYLOAD
    {
      var _, _ := EmittedIs(c, width, waves, n);
    }
  }

  lemma LastPacket(count: nat, width: nat, last: nat, i: nat, j: nat)
    requires i < count && j < width && 1 <= last <= width && (i == count - 1 ==> j < last)
    ensures i * width + j == (count - 1) * width + last - 1 <==> i == count - 1 && j == last - 1
  {
    if i < count - 1 {
      ProductMonotone(i + 1, count - 1, width);
      ProductStep(i, width);
    }
  }

  lemma EmittedSize(c: Cipher, width: nat, waves: seq<seq<byte>>, i: nat, j: nat)
    requires Correct(c) && Shaped(waves, width) && i < |waves| && j < PacketCount(|waves[i]|)
    ensures var cipher := c.encrypt(i, waves[i]);
            && j * MAX_PAYLOAD < |cipher|
            && |Slot(cipher, j)|
               == if i == |waves| - 1 && j == PacketCount(|waves[i]|) - 1 then LastPayload(|waves[i]|) else MAX_PAYLOAD
  {
    SlotSize(c.encrypt(i, waves[i]), |waves[i]|, j);
  }
}
