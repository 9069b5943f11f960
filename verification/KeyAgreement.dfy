/** Both ends derive the same keys, from the first exchange on and through every rekey. */
module KeyAgreement {
  import opened Words
  import opened Bytes
  import opened KeyChain

  /** Same keys and entropy, opposite roles; only the identifier may differ. */
  ghost predicate PairedLayers(a: Layer, b: Layer)
  {
    && a.chain == b.chain && a.node != b.node
    && a.bank.version == b.bank.version && a.bank.entropy == b.bank.entropy
  }

  ghost predicate Paired(a: Ratchet, b: Ratchet)
  {
    && |a.message| == |b.message| && PairedLayers(a.scramble, b.scramble)
    && forall i :: 0 <= i < |a.message| ==> PairedLayers(a.message[i], b.message[i])
  }

  lemma DerivedAlways(p: Primitives, previous: Option<Chain>, ss: seq<byte>)
    requires Sound(p)
    ensures Derived(p, previous, ss).Some?
  {
  }

  lemma ContainersMatch(p: Primitives, previous: Option<Chain>, seed: nat, nonce: seq<byte>, stamp: Stamp, draw: Draw)
    requires Sound(p)
    ensures var bob := BobContainer(p, previous, p.publicKey(seed), nonce, stamp, draw);
            && bob.Some? && bob.value.0.node == Bob && bob.value.0.bank == Bank(stamp.version, stamp.cid, draw.entropy)
            && AliceContainer(p, previous, seed, bob.value.1, nonce, bob.value.2) == Some(bob.value.0.(node := Alice))
  {
    DerivedAlways(p, previous, p.encapsulate(p.publicKey(seed), draw.seed).1);
  }

  lemma BobOneMore(p: Primitives, chains: seq<Option<Chain>>, keys: seq<seq<byte>>, nonce: seq<byte>, stamp: Stamp,
                   draws: nat -> Draw, n: nat)
    requires Sound(p) && 0 < n <= |chains| && n <= |keys|
    ensures var c := BobContainer(p, chains[n - 1], keys[n - 1], nonce, stamp, draws(n - 1));
            && c.Some? && Made(p, chains[n - 1], keys[n - 1], nonce, stamp, draws(n - 1), c.value)
            && BobContainers(p, chains, keys, nonce, stamp, draws, n)
               == BobContainers(p, chains, keys, nonce, stamp, draws, n - 1) + [c.value]
  {
    DerivedAlways(p, chains[n - 1], p.encapsulate(keys[n - 1], draws(n - 1).seed).1);
  }

  ghost predicate Made(p: Primitives, chain: Option<Chain>, key: seq<byte>, nonce: seq<byte>, stamp: Stamp, draw: Draw,
                       c: (Layer, seq<byte>, seq<byte>))
  {
    BobContainer(p, chain, key, nonce, stamp, draw) == Some(c)
  }

  lemma MadeOneMore(p: Primitives, chains: seq<Option<Chain>>, keys: seq<seq<byte>>, nonce: seq<byte>, stamp: Stamp,
                    draws: nat -> Draw, front: seq<(Layer, seq<byte>, seq<byte>)>, c: (Layer, seq<byte>, seq<byte>))
    requires |front| < |chains| && |front| < |keys|
    requires forall i :: 0 <= i < |front| ==> Made(p, chains[i], keys[i], nonce, stamp, draws(i), front[i])
    requires Made(p, chains[|front|], keys[|front|], nonce, stamp, draws(|front|), c)
    ensures forall i :: 0 <= i < |front| + 1 ==> Made(p, chains[i], keys[i], nonce, stamp, draws(i), (front + [c])[i])
  {
  }

  /** Every container of the zip succeeds. */
  lemma {:induction false} BobHasAll(p: Primitives, chains: seq<Option<Chain>>, keys: seq<seq<byte>>,
                                     nonce: seq<byte>, stamp: Stamp, draws: nat -> Draw, n: nat)
    requires Sound(p) && n <= |chains| && n <= |keys|
    ensures var cs := BobContainers(p, chains, keys, nonce, stamp, draws, n);
            && |cs| == n
            && forall i :: 0 <= i < n ==> Made(p, chains[i], keys[i], nonce, stamp, draws(i), cs[i])
  {
    if n > 0 {
      BobHasAll(p, chains, keys, nonce, stamp, draws, n - 1);
      BobOneMore(p, chains, keys, nonce, stamp, draws, n);
      MadeOneMore(p, chains, keys, nonce, stamp, draws, BobContainers(p, chains, keys, nonce, stamp, draws, n - 1),
                  BobContainer(p, chains[n - 1], keys[n - 1], nonce, stamp, draws(n - 1)).value);
    }
  }

  ghost predicate Taken(p: Primitives, a: Proposal, t: ToAlice, i: nat, layer: Layer)
  {
    && i < |a.chains| && i < |a.seeds| && i < |t.ciphertexts| && i < |t.banks|
    && AliceContainer(p, a.chains[i], a.seeds[i], t.ciphertexts[i], a.nonce, t.banks[i]) == Some(layer)
  }

  lemma AliceOneMore(p: Primitives, a: Proposal, t: ToAlice, n: nat, front: seq<Layer>, layer: Layer)
    requires 0 < n <= |a.chains| == |a.seeds| && Taken(p, a, t, n - 1, layer)
    requires AliceContainers(p, a, t, n - 1) == Some(front)
    ensures AliceContainers(p, a, t, n) == Some(front + [layer])
  {
  }

  lemma {:induction false} AliceHasAll(p: Primitives, a: Proposal, t: ToAlice, layers: seq<Layer>, n: nat)
    requires n <= |layers| == |a.chains| == |a.seeds|
    requires forall i :: 0 <= i < |layers| ==> Taken(p, a, t, i, layers[i])
    ensures AliceContainers(p, a, t, n) == Some(layers[..n])
  {
    if n > 0 {
      var i := n - 1;
      assert layers[..n] == layers[..i] + [layers[i]];
      AliceHasAll(p, a, t, layers, i);
      AliceOneMore(p, a, t, n, layers[..i], layers[i]);
    }
  }

  /** Alice's containers are Bob's with the role changed. */
  lemma {:induction false} AliceMirrors(p: Primitives, a: Proposal, stamp: Stamp, draws: nat -> Draw, cs: seq<(Layer, seq<byte>, seq<byte>)>, t: ToAlice)
    requires Sound(p) && |cs| == |a.chains| == |a.seeds| == |t.ciphertexts| == |t.banks|
    requires forall i :: 0 <= i < |cs| ==> Made(p, a.chains[i], p.publicKey(a.seeds[i]), a.nonce, stamp, draws(i), cs[i])
    requires forall i :: 0 <= i < |cs| ==> t.ciphertexts[i] == cs[i].1 && t.banks[i] == cs[i].2
    ensures var layers := AliceContainers(p, a, t, |cs|);
            && layers.Some? && |layers.value| == |cs|
            && (forall i :: 0 <= i < |cs| ==> PairedLayers(layers.value[i], cs[i].0))
            && (forall i :: 0 <= i < |cs| ==> layers.value[i].bank.version == stamp.version && layers.value[i].bank.cid == stamp.cid)
  {
    var layers := seq(|cs|, (i: int) requires 0 <= i < |cs| => cs[i].0.(node := Alice));
    forall i | 0 <= i < |cs|
      ensures Taken(p, a, t, i, layers[i])
      ensures PairedLayers(layers[i], cs[i].0) && layers[i].bank.version == stamp.version && layers[i].bank.cid == stamp.cid
    {
      ContainersMatch(p, a.chains[i], a.seeds[i], a.nonce, stamp, draws(i));
    }
    AliceHasAll(p, a, t, layers, |cs|);
    assert layers[..|cs|] == layers;
  }

  lemma BobAnswers(p: Primitives, a: Proposal, stamp: Stamp, draws: nat -> Draw, scrambleDraw: Draw)
    returns (cs: seq<(Layer, seq<byte>, seq<byte>)>)
    requires Sound(p) && |a.chains| == |a.seeds|
    ensures |cs| == |a.seeds|
    ensures forall i :: 0 <= i < |cs| ==> Made(p, a.chains[i], p.publicKey(a.seeds[i]), a.nonce, stamp, draws(i), cs[i])
    ensures var bob := BobFinishes(p, a.chains, Stage0Alice(p, a), stamp, draws, scrambleDraw);
            var s := BobContainer(p, None, p.publicKey(a.scrambleSeed), a.scrambleNonce, stamp, scrambleDraw);
            && s.Some? && (bob.Some? <==> |a.seeds| == a.level + 1)
            && (bob.Some? ==>
                  && bob.value.0 == Ratchet(seq(|cs|, (i: int) requires 0 <= i < |cs| => cs[i].0), s.value.0)
                  && bob.value.1 == ToAlice(seq(|cs|, (i: int) requires 0 <= i < |cs| => cs[i].1), s.value.1,
                                            seq(|cs|, (i: int) requires 0 <= i < |cs| => cs[i].2), s.value.2))
  {
    var t := Stage0Alice(p, a);
    cs := BobContainers(p, a.chains, t.keys, t.nonce, stamp, draws, |a.seeds|);
    BobHasAll(p, a.chains, t.keys, a.nonce, stamp, draws, |a.seeds|);
    DerivedAlways(p, None, p.encapsulate(t.scrambleKey, scrambleDraw.seed).1);
  }

  /** Bob answers exactly when the level asked for is the number of layers, and then Alice gets his keys. */
  lemma ExchangeAgrees(p: Primitives, a: Proposal, stamp: Stamp, draws: nat -> Draw, scrambleDraw: Draw)
    requires Sound(p) && |a.chains| == |a.seeds|
    ensures var bob := BobFinishes(p, a.chains, Stage0Alice(p, a), stamp, draws, scrambleDraw);
            && (bob.Some? <==> |a.seeds| == a.level + 1)
            && (bob.Some? ==> var alice := AliceFinishes(p, a, bob.value.1);
                              alice.Some? && Paired(alice.value, bob.value.0) && |alice.value.message| == |a.seeds|)
  {
    var cs := BobAnswers(p, a, stamp, draws, scrambleDraw);
    if |a.seeds| == a.level + 1 {
      var (bob, t) := BobFinishes(p, a.chains, Stage0Alice(p, a), stamp, draws, scrambleDraw).value;
      AliceMirrors(p, a, stamp, draws, cs, t);
      ContainersMatch(p, None, a.scrambleSeed, a.scrambleNonce, stamp, scrambleDraw);
      MirrorsPair(p, a, stamp, cs, bob, t);
    }
  }

  lemma {:induction false} MirrorsPair(p: Primitives, a: Proposal, stamp: Stamp, cs: seq<(Layer, seq<byte>, seq<byte>)>, bob: Ratchet, t: ToAlice)
    requires |a.chains| == |a.seeds| == |cs| == |bob.message| && |cs| > 0
    requires var layers := AliceContainers(p, a, t, |cs|);
             && layers.Some? && |layers.value| == |cs|
             && (forall i :: 0 <= i < |cs| ==> PairedLayers(layers.value[i], cs[i].0))
             && (forall i :: 0 <= i < |cs| ==> layers.value[i].bank.version == stamp.version && layers.value[i].bank.cid == stamp.cid)
    requires forall i :: 0 <= i < |cs| ==> bob.message[i] == cs[i].0
    requires bob.scramble.node == Bob && bob.scramble.bank.version == stamp.version && bob.scramble.bank.cid == stamp.cid
    requires AliceContainer(p, None, a.scrambleSeed, t.scrambleCiphertext, a.scrambleNonce, t.scrambleBank)
             == Some(bob.scramble.(node := Alice))
    ensures var alice := AliceFinishes(p, a, t);
            alice.Some? && Paired(alice.value, bob) && |alice.value.message| == |a.seeds|
  {
    var layers := AliceContainers(p, a, t, |cs|).value;
    assert layers[0].bank.version == stamp.version && layers[0].bank.cid == stamp.cid;
  }

  // ---- Rekeys ----

  lemma {:induction false} ChainsAgree(a: seq<Layer>, b: seq<Layer>)
    requires |a| == |b| && forall i :: 0 <= i < |a| ==> a[i].chain == b[i].chain
    ensures Chains(a) == Chains(b)
    decreases |a|
  {
    if a != [] { ChainsAgree(a[..|a| - 1], b[..|b| - 1]); }
  }

  lemma NextChainsAgree(p: Primitives, a: Ratchet, b: Ratchet)
    requires Paired(a, b)
    ensures NextChains(p, a) == NextChains(p, b)
  {
    ChainsAgree(a.message, b.message);
  }

  /** Everything both sides draw in one rekey, and the level and version it is for. */
  datatype Rekey = Rekey(initiatorProposes: bool, level: nat, seeds: nat -> nat, scrambleSeed: nat, nonce: seq<byte>,
                         scrambleNonce: seq<byte>, stamp: Stamp, draws: nat -> Draw, scrambleDraw: Draw, version: u32)

  function ProposalFor(k: Rekey, chains: seq<Option<Chain>>): (a: Proposal)
    ensures a.chains == chains && |a.seeds| == |chains| && a.level == k.level
  {
    Proposal(chains, seq<nat>(|chains|, (i: int) requires 0 <= i < |chains| => k.seeds(i)), k.scrambleSeed,
             k.nonce, k.scrambleNonce, k.level)
  }

  /** One rekey with `alice` proposing; None when Bob or Alice gives up. */
  function Rekeyed(p: Primitives, alice: Ratchet, aliceCid: u64, bob: Ratchet, bobCid: u64, k: Rekey): Option<(Ratchet, Ratchet)>
  {
    var a := ProposalFor(k, NextChains(p, alice));
    match BobFinishes(p, NextChains(p, bob), Stage0Alice(p, a), k.stamp, k.draws, k.scrambleDraw)
    case None => None
    case Some((bob', t)) =>
      match AliceFinishes(p, a, t)
      case None => None
      case Some(alice') => Some((Finished(alice', k.version, aliceCid), Finished(bob', k.version, bobCid)))
  }

  datatype Ends = Ends(initiator: Ratchet, initiatorCid: u64, responder: Ratchet, responderCid: u64)

  /** A rekey that is given up leaves both ends as they were. */
  function Next(p: Primitives, e: Ends, k: Rekey): Ends
  {
    if k.initiatorProposes then
      match Rekeyed(p, e.initiator, e.initiatorCid, e.responder, e.responderCid, k)
      case None => e
      case Some((a, b)) => e.(initiator := a, responder := b)
    else
      match Rekeyed(p, e.responder, e.responderCid, e.initiator, e.initiatorCid, k)
      case None => e
      case Some((a, b)) => e.(initiator := b, responder := a)
  }

  function After(p: Primitives, e: Ends, ks: seq<Rekey>): Ends
    decreases |ks|
  {
    if ks == [] then e else Next(p, After(p, e, ks[..|ks| - 1]), ks[|ks| - 1])
  }

  lemma FinishedPairs(a: Ratchet, b: Ratchet, version: u32, aliceCid: u64, bobCid: u64)
    requires Paired(a, b)
    ensures Paired(Finished(a, version, aliceCid), Finished(b, version, bobCid))
  {
    var a', b' := Finished(a, version, aliceCid), Finished(b, version, bobCid);
    forall i | 0 <= i < |a.message|
      ensures PairedLayers(a'.message[i], b'.message[i])
    {
      assert PairedLayers(a.message[i], b.message[i]);
    }
  }

  lemma RekeyAgrees(p: Primitives, alice: Ratchet, aliceCid: u64, bob: Ratchet, bobCid: u64, k: Rekey)
    requires Sound(p) && Paired(alice, bob)
    ensures var out := Rekeyed(p, alice, aliceCid, bob, bobCid, k);
            && (out.Some? <==> |alice.message| == k.level + 1)
            && (out.Some? ==> Paired(out.value.0, out.value.1) && |out.value.0.message| == |alice.message|)
  {
    NextChainsAgree(p, alice, bob);
    var a := ProposalFor(k, NextChains(p, alice));
    ExchangeAgrees(p, a, k.stamp, k.draws, k.scrambleDraw);
    if |a.chains| == k.level + 1 {
      var (bob', t) := BobFinishes(p, a.chains, Stage0Alice(p, a), k.stamp, k.draws, k.scrambleDraw).value;
      FinishedPairs(AliceFinishes(p, a, t).value, bob', k.version, aliceCid, bobCid);
    }
  }

  lemma PairedSymmetric(a: Ratchet, b: Ratchet)
    ensures Paired(a, b) <==> Paired(b, a)
  {
  }

  /** Through any rekeys, whoever proposes and whichever are refused, the two ends stay paired. */
  lemma {:induction false} StayPaired(p: Primitives, e: Ends, ks: seq<Rekey>)
    requires Sound(p) && Paired(e.initiator, e.responder)
    ensures var e' := After(p, e, ks); Paired(e'.initiator, e'.responder) && |e'.initiator.message| == |e.initiator.message|
    decreases |ks|
  {
    if ks != [] {
      var front, k := ks[..|ks| - 1], ks[|ks| - 1];
      StayPaired(p, e, front);
      var m := After(p, e, front);
      NextPaired(p, m, k);
    }
  }

  lemma NextPaired(p: Primitives, e: Ends, k: Rekey)
    requires Sound(p) && Paired(e.initiator, e.responder)
    ensures var e' := Next(p, e, k); Paired(e'.initiator, e'.responder) && |e'.initiator.message| == |e.initiator.message|
  {
    if k.initiatorProposes {
      RekeyAgrees(p, e.initiator, e.initiatorCid, e.responder, e.responderCid, k);
    } else {
      PairedSymmetric(e.initiator, e.responder);
      RekeyAgrees(p, e.responder, e.responderCid, e.initiator, e.initiatorCid, k);
      var e' := Next(p, e, k);
      PairedSymmetric(e'.initiator, e'.responder);
    }
  }

  /** What `a` seals with the module it selects for sending, `b` opens with the one it selects for receiving. */
  ghost predicate Understands(p: Primitives, alg: Algorithm, a: Layer, b: Layer, nonce: seq<byte>, m: seq<byte>)
  {
    var out, into := a.EncryptionModule(alg), b.DecryptionModule(alg);
    out.Some? && into.Some? && p.open(into.value.OpenKey(), nonce, p.seal(out.value.SealKey(), nonce, m)) == Some(m)
  }

  /** The modules hold the keys of the two directions, whichever the algorithm. */
  lemma ModuleKeys(layer: Layer, alg: Algorithm)
    ensures layer.EncryptionModule(alg).Some? && layer.EncryptionModule(alg).value.SealKey() == layer.EncryptionKey()
    ensures layer.DecryptionModule(alg).Some? && layer.DecryptionModule(alg).value.OpenKey() == layer.DecryptionKey()
    ensures layer.Modules(alg).0.Some? <==> alg == Symmetric || layer.node == Alice
    ensures layer.Modules(alg).1.Some? <==> alg == Symmetric || layer.node == Bob
  {
  }

  /** What either end encrypts in any layer after any rekeys, the other decrypts, under either kind of algorithm. */
  lemma {:induction false} TrafficDecrypts(p: Primitives, alg: Algorithm, e: Ends, ks: seq<Rekey>, i: nat, nonce: seq<byte>, m: seq<byte>)
    requires Sound(p) && Paired(e.initiator, e.responder) && i < |e.initiator.message|
    ensures i < |After(p, e, ks).initiator.message| == |After(p, e, ks).responder.message|
    ensures var e' := After(p, e, ks);
            var a, b := e'.initiator.message[i], e'.responder.message[i];
            Understands(p, alg, a, b, nonce, m) && Understands(p, alg, b, a, nonce, m)
  {
    StayPaired(p, e, ks);
    var e' := After(p, e, ks);
    var a, b := e'.initiator.message[i], e'.responder.message[i];
    assert PairedLayers(a, b);
    ModuleKeys(a, alg);
    ModuleKeys(b, alg);
  }

  /** The first exchange, with no chain to build on, pairs the ends. */
  lemma FirstExchangePairs(p: Primitives, k: Rekey, none: seq<Option<Chain>>)
    requires Sound(p) && |none| == k.level + 1 && forall i :: 0 <= i < |none| ==> none[i] == None
    ensures var a := ProposalFor(k, none);
            var bob := BobFinishes(p, none, Stage0Alice(p, a), k.stamp, k.draws, k.scrambleDraw);
            && bob.Some? && AliceFinishes(p, a, bob.value.1).Some?
            && Paired(AliceFinishes(p, a, bob.value.1).value, bob.value.0)
  {
    ExchangeAgrees(p, ProposalFor(k, none), k.stamp, k.draws, k.scrambleDraw);
  }

  // ---- The contract of the primitives can be met ----

  function WriteBank(b: Bank): seq<byte>
  {
    BigEndian(b.version, 4) + BigEndian(b.cid, 8) + b.entropy
  }

  function ReadBank(s: seq<byte>): Option<Bank>
  {
    if |s| < 12 then None else
    var version, cid := Value(s[..4]), Value(s[4..12]);
    if version < TWO32 && cid < TWO64 then Some(Bank(version, cid, s[12..])) else None
  }

  lemma {:induction false} BankReadBack(b: Bank)
    ensures ReadBank(WriteBank(b)) == Some(b)
  {
    WordSizes();
    var version, cid := BigEndian(b.version, 4), BigEndian(b.cid, 8);
    ValueOfBigEndian(b.version, 4);
    ValueOfBigEndian(b.cid, 8);
    var s := version + cid + b.entropy;
    assert s[..4] == version && s[4..12] == cid && s[12..] == b.entropy;
  }

  lemma SoundExists() returns (p: Primitives)
    ensures Sound(p)
  {
    var h256: seq<byte>, h512: seq<byte> := seq(KEY_LEN, _ => 0), seq(2 * KEY_LEN, _ => 0);
    p := Primitives(_ => h256, _ => h512, _ => [], (key, seed) => ([], []), (seed, ct) => Some([]),
                    (k, n, m) => m, (k, n, c) => Some(c), b => WriteBank(b), s => ReadBank(s));
    forall b: Bank
      ensures p.read(p.write(b)) == Some(b)
    {
      BankReadBack(b);
    }
  }
}
