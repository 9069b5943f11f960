/**
 Key derivation and the two-message exchange that builds a ratchet: citadel_pqcrypto/src/lib.rs
 (generate_recursive_keystore) and citadel_crypt/src/stacked_ratchet.rs (the constructors).
 */
module KeyChain {
  import opened Words

  const KEY_LEN: nat := 32

  /** An entropy bank; the port mapping is drawn with the entropy. */
  datatype Bank = Bank(version: u32, cid: u64, entropy: seq<byte>)

  datatype Primitives = Primitives(
    h256: seq<byte> -> seq<byte>,
    h512: seq<byte> -> seq<byte>,
    publicKey: nat -> seq<byte>,
    encapsulate: (seq<byte>, nat) -> (seq<byte>, seq<byte>),
    decapsulate: (nat, seq<byte>) -> Option<seq<byte>>,
    seal: (seq<byte>, seq<byte>, seq<byte>) -> seq<byte>,
    open: (seq<byte>, seq<byte>, seq<byte>) -> Option<seq<byte>>,
    write: Bank -> seq<byte>,
    read: seq<byte> -> Option<Bank>)

  /** What the primitives promise; a key pair is named by the seed it was made from. */
  ghost predicate Sound(p: Primitives)
  {
    && (forall s: seq<byte> :: |p.h256(s)| == KEY_LEN)
    && (forall s: seq<byte> :: |p.h512(s)| == 2 * KEY_LEN)
    && (forall a: nat, b: nat :: var (ct, ss) := p.encapsulate(p.publicKey(a), b); p.decapsulate(a, ct) == Some(ss))
    && (forall k: seq<byte>, n: seq<byte>, m: seq<byte> :: p.open(k, n, p.seal(k, n, m)) == Some(m))
    && (forall b: Bank :: p.read(p.write(b)) == Some(b))
  }

  function Pow2(n: nat): (r: nat)
    ensures r >= 1
  {
    if n == 0 then 1 else 2 * Pow2(n - 1)
  }

  /** Exclusive or of the low n bits. */
  function XorBits(a: nat, b: nat, n: nat): (r: nat)
    ensures r < Pow2(n)
  {
    if n == 0 then 0 else 2 * XorBits(a / 2, b / 2, n - 1) + if a % 2 == b % 2 then 0 else 1
  }

  function XorByte(a: byte, b: byte): byte
  {
    assert Pow2(8) == 256;
    XorBits(a, b, 8)
  }

  /** zip and xor: as long as the shorter of the two */
  function Xor(a: seq<byte>, b: seq<byte>): seq<byte>
  {
    var n := if |a| < |b| then |a| else |b|;
    seq(n, (k: int) requires 0 <= k < n => XorByte(a[k], b[k]))
  }

  /** The chain value and the keys of the two directions. */
  datatype Chain = Chain(chain: seq<byte>, alice: seq<byte>, bob: seq<byte>)

  /** generate_recursive_keystore; None where a part has not 32 bytes. */
  function Derived(p: Primitives, previous: Option<Chain>, ss: seq<byte>): Option<Chain>
  {
    var temp := p.h512(if previous.Some? then previous.value.chain + ss else ss);
    if |temp| != 2 * KEY_LEN then None else
    var (alice, bob) :=
      if previous.Some?
      then (p.h256(Xor(previous.value.alice, temp[..KEY_LEN])), p.h256(Xor(previous.value.bob, temp[KEY_LEN..])))
      else (temp[..KEY_LEN], temp[KEY_LEN..]);
    var chain := p.h256(Xor(alice, bob));
    if |chain| != KEY_LEN || |alice| != KEY_LEN || |bob| != KEY_LEN then None else Some(Chain(chain, alice, bob))
  }

  datatype Node = Alice | Bob

  datatype Algorithm = Symmetric | Kyber

  /** A cipher under one key, or the hybrid module with its symmetric key for either direction. */
  datatype Module = Aead(key: seq<byte>) | Hybrid(local: seq<byte>, remote: seq<byte>)
  {
    function SealKey(): seq<byte> { if Aead? then key else local }

    function OpenKey(): seq<byte> { if Aead? then key else remote }
  }

  datatype Layer = Layer(chain: Chain, node: Node, bank: Bank)
  {
    function EncryptionKey(): seq<byte> { if node == Alice then chain.alice else chain.bob }

    function DecryptionKey(): seq<byte> { if node == Alice then chain.bob else chain.alice }

    /** keys_to_aead_store: the module of Alice and that of Bob; in Kyber mode an end has only its own. */
    function Modules(alg: Algorithm): (Option<Module>, Option<Module>)
    {
      match alg
      case Symmetric => (Some(Aead(chain.alice)), Some(Aead(chain.bob)))
      case Kyber =>
        var own := Some(Hybrid(EncryptionKey(), DecryptionKey()));
        if node == Alice then (own, None) else (None, own)
    }

    /** get_encryption_key */
    function EncryptionModule(alg: Algorithm): Option<Module>
    {
      if node == Alice then Modules(alg).0 else Modules(alg).1
    }

    /** get_decryption_key: in Kyber mode the end's own module */
    function DecryptionModule(alg: Algorithm): Option<Module>
    {
      if alg == Kyber then EncryptionModule(alg) else if node == Alice then Modules(alg).1 else Modules(alg).0
    }
  }

  datatype Ratchet = Ratchet(message: seq<Layer>, scramble: Layer)

  function Chains(layers: seq<Layer>): seq<byte>
    decreases |layers|
  {
    if layers == [] then [] else Chains(layers[..|layers| - 1]) + layers[|layers| - 1].chain.chain
  }

  /** get_next_constructor_opts: one chain value over all layers, each layer's own keys. */
  function NextChains(p: Primitives, r: Ratchet): seq<Option<Chain>>
  {
    var meta := p.h256(Chains(r.message));
    seq(|r.message|, (i: int) requires 0 <= i < |r.message| => Some(Chain(meta, r.message[i].chain.alice, r.message[i].chain.bob)))
  }

  // ---- The exchange ----

  /** What Alice keeps while she waits: a key pair and a previous chain for each layer. */
  datatype Proposal = Proposal(chains: seq<Option<Chain>>, seeds: seq<nat>, scrambleSeed: nat, nonce: seq<byte>,
                               scrambleNonce: seq<byte>, level: nat)

  datatype ToBob = ToBob(keys: seq<seq<byte>>, scrambleKey: seq<byte>, nonce: seq<byte>, scrambleNonce: seq<byte>, level: nat)

  datatype ToAlice = ToAlice(ciphertexts: seq<seq<byte>>, scrambleCiphertext: seq<byte>,
                             banks: seq<seq<byte>>, scrambleBank: seq<byte>)

  /** What Bob draws for one container. */
  datatype Draw = Draw(seed: nat, entropy: seq<byte>)

  /** The identifier and version Bob puts in every bank he makes. */
  datatype Stamp = Stamp(version: u32, cid: u64)

  function Stage0Alice(p: Primitives, a: Proposal): ToBob
  {
    ToBob(seq(|a.seeds|, (i: int) requires 0 <= i < |a.seeds| => p.publicKey(a.seeds[i])),
          p.publicKey(a.scrambleSeed), a.nonce, a.scrambleNonce, a.level)
  }

  /** A container of Bob's, the ciphertext for it and the bank under Bob's key. */
  function BobContainer(p: Primitives, previous: Option<Chain>, key: seq<byte>, nonce: seq<byte>, stamp: Stamp, draw: Draw)
    : Option<(Layer, seq<byte>, seq<byte>)>
  {
    var (ct, ss) := p.encapsulate(key, draw.seed);
    match Derived(p, previous, ss)
    case None => None
    case Some(chain) =>
      var layer := Layer(chain, Bob, Bank(stamp.version, stamp.cid, draw.entropy));
      Some((layer, ct, p.seal(layer.EncryptionKey(), nonce, p.write(layer.bank))))
  }

  /** The containers of the zip, where one that fails is left out. */
  function BobContainers(p: Primitives, chains: seq<Option<Chain>>, keys: seq<seq<byte>>, nonce: seq<byte>, stamp: Stamp,
                         draws: nat -> Draw, n: nat)
    : seq<(Layer, seq<byte>, seq<byte>)>
    requires n <= |chains| && n <= |keys|
  {
    if n == 0 then [] else
    var front := BobContainers(p, chains, keys, nonce, stamp, draws, n - 1);
    match BobContainer(p, chains[n - 1], keys[n - 1], nonce, stamp, draws(n - 1))
    case None => front
    case Some(c) => front + [c]
  }

  /** new_bob and stage0_bob: a ratchet and the answer, unless the level does not match the layers. */
  function BobFinishes(p: Primitives, chains: seq<Option<Chain>>, t: ToBob, stamp: Stamp, draws: nat -> Draw, scrambleDraw: Draw)
    : Option<(Ratchet, ToAlice)>
  {
    var n := if |t.keys| < |chains| then |t.keys| else |chains|;
    var cs := BobContainers(p, chains, t.keys, t.nonce, stamp, draws, n);
    if |cs| != t.level + 1 then None else
    match BobContainer(p, None, t.scrambleKey, t.scrambleNonce, stamp, scrambleDraw)
    case None => None
    case Some((scramble, ct, bank)) =>
      Some((Ratchet(seq(|cs|, (i: int) requires 0 <= i < |cs| => cs[i].0), scramble),
            ToAlice(seq(|cs|, (i: int) requires 0 <= i < |cs| => cs[i].1), ct,
                    seq(|cs|, (i: int) requires 0 <= i < |cs| => cs[i].2), bank)))
  }

  /** alice_on_receive_ciphertext, then the bank under Bob's key. */
  function AliceContainer(p: Primitives, previous: Option<Chain>, seed: nat, ct: seq<byte>, nonce: seq<byte>, sealed: seq<byte>)
    : Option<Layer>
  {
    match p.decapsulate(seed, ct)
    case None => None
    case Some(ss) =>
      match Derived(p, previous, ss)
      case None => None
      case Some(chain) =>
        match p.open(chain.bob, nonce, sealed)
        case None => None
        case Some(bytes) =>
          match p.read(bytes)
          case None => None
          case Some(bank) => Some(Layer(chain, Alice, bank))
  }

  /** The first n containers; any failure is the exchange's. */
  function AliceContainers(p: Primitives, a: Proposal, t: ToAlice, n: nat): Option<seq<Layer>>
    requires n <= |a.chains| && n <= |a.seeds|
  {
    if n == 0 then Some([]) else
    var front := AliceContainers(p, a, t, n - 1);
    if front.None? || n > |t.ciphertexts| || n > |t.banks| then None else
    match AliceContainer(p, a.chains[n - 1], a.seeds[n - 1], t.ciphertexts[n - 1], a.nonce, t.banks[n - 1])
    case None => None
    case Some(layer) => Some(front.value + [layer])
  }

  /** stage1_alice with its comparison of the first message bank and the scramble bank */
  function AliceFinishes(p: Primitives, a: Proposal, t: ToAlice): Option<Ratchet>
    requires |a.chains| == |a.seeds|
  {
    var layers := AliceContainers(p, a, t, |a.seeds|);
    if layers.None? || layers.value == [] then None else
    match AliceContainer(p, None, a.scrambleSeed, t.scrambleCiphertext, a.scrambleNonce, t.scrambleBank)
    case None => None
    case Some(scramble) =>
      var bank := layers.value[0].bank;
      if scramble.bank.version != bank.version || scramble.bank.cid != bank.cid then None
      else Some(Ratchet(layers.value, scramble))
  }

  function WithBank(layer: Layer, version: u32, cid: u64): Layer
  {
    layer.(bank := layer.bank.(version := version, cid := cid))
  }

  /** update_version and finish_with_custom_cid */
  function Finished(r: Ratchet, version: u32, cid: u64): Ratchet
  {
    Ratchet(seq(|r.message|, (i: int) requires 0 <= i < |r.message| => WithBank(r.message[i], version, cid)),
            WithBank(r.scramble, version, cid))
  }
}
