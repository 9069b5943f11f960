/** What the keys of an exchange come from, and that they leave no choice of where they came from. */
module KeyBinding {
  import opened Words
  import opened Arith
  import opened KeyChain
  import opened KeyAgreement

  // ---- Exclusive or, bit by bit ----

  predicate Bit(x: nat, k: nat)
  {
    x / Pow2(k) % 2 == 1
  }

  lemma HalfThen(x: nat, m: nat)
    requires m >= 1
    ensures x / (2 * m) == x / 2 / m
  {
    var q, r := x / 2 / m, x / 2 % m;
    assert x / 2 == q * m + r;
    assert x == q * (2 * m) + (2 * r + x % 2);
    DivUnique(x, 2 * m, q, 2 * r + x % 2);
  }

  lemma {:induction false} BitOfHalf(x: nat, k: nat)
    requires k > 0
    ensures Bit(x, k) <==> Bit(x / 2, k - 1)
  {
    HalfThen(x, Pow2(k - 1));
  }

  /** A bit is set exactly when it is set in one of the two and not in the other. */
  lemma {:induction false} XorBit(a: nat, b: nat, n: nat, k: nat)
    requires k < n
    ensures Bit(XorBits(a, b, n), k) <==> Bit(a, k) != Bit(b, k)
  {
    if k > 0 {
      XorBit(a / 2, b / 2, n - 1, k - 1);
      BitOfHalf(a, k);
      BitOfHalf(b, k);
      BitOfHalf(XorBits(a, b, n), k);
      assert XorBits(a, b, n) / 2 == XorBits(a / 2, b / 2, n - 1);
    }
  }

  lemma XorByteBit(a: byte, b: byte, k: nat)
    requires k < 8
    ensures Bit(XorByte(a, b), k) <==> Bit(a, k) != Bit(b, k)
  {
    XorBit(a, b, 8, k);
  }

  // ---- One derivation ----

  lemma {:induction false} XorCancels(a: nat, b: nat, c: nat, n: nat)
    requires XorBits(a, b, n) == XorBits(a, c, n) && b < Pow2(n) && c < Pow2(n)
    ensures b == c
  {
    if n > 0 { XorCancels(a / 2, b / 2, c / 2, n - 1); }
  }

  lemma XorInjective(a: seq<byte>, s: seq<byte>, t: seq<byte>)
    requires |a| == |s| == |t| && Xor(a, s) == Xor(a, t)
    ensures s == t
  {
    forall k | 0 <= k < |s|
      ensures s[k] == t[k]
    {
      assert Xor(a, s)[k] == XorByte(a[k], s[k]) && Xor(a, t)[k] == XorByte(a[k], t[k]);
      assert Pow2(8) == 256;
      XorCancels(a[k], s[k], t[k], 8);
    }
  }

  ghost predicate Collide(h: seq<byte> -> seq<byte>, s: seq<byte>, t: seq<byte>)
  {
    s != t && h(s) == h(t)
  }

  /** The same keys come from the same chain value and shared secret, or from a collision that is at hand. */
  lemma KeysBindChainAndSecret(p: Primitives, previous: Chain, chain: seq<byte>, ss: seq<byte>, ss': seq<byte>)
    requires Sound(p) && |previous.chain| == |chain| == |previous.alice| == |previous.bob| == KEY_LEN
    requires var k, k' := Derived(p, Some(previous), ss), Derived(p, Some(previous.(chain := chain)), ss');
             k.Some? && k'.Some? && k.value.alice == k'.value.alice && k.value.bob == k'.value.bob
    ensures var t, t' := p.h512(previous.chain + ss), p.h512(chain + ss');
            || (previous.chain == chain && ss == ss')
            || Collide(p.h512, previous.chain + ss, chain + ss')
            || Collide(p.h256, Xor(previous.alice, t[..KEY_LEN]), Xor(previous.alice, t'[..KEY_LEN]))
            || Collide(p.h256, Xor(previous.bob, t[KEY_LEN..]), Xor(previous.bob, t'[KEY_LEN..]))
  {
    var t, t' := p.h512(previous.chain + ss), p.h512(chain + ss');
    if Xor(previous.alice, t[..KEY_LEN]) == Xor(previous.alice, t'[..KEY_LEN])
       && Xor(previous.bob, t[KEY_LEN..]) == Xor(previous.bob, t'[KEY_LEN..]) {
      XorInjective(previous.alice, t[..KEY_LEN], t'[..KEY_LEN]);
      XorInjective(previous.bob, t[KEY_LEN..], t'[KEY_LEN..]);
      assert t == t[..KEY_LEN] + t[KEY_LEN..] && t' == t'[..KEY_LEN] + t'[KEY_LEN..];
      assert (previous.chain + ss)[..KEY_LEN] == previous.chain && (chain + ss')[..KEY_LEN] == chain;
      assert (previous.chain + ss)[KEY_LEN..] == ss && (chain + ss')[KEY_LEN..] == ss';
    }
  }

  /** With no chain to build on, the two keys are the halves of the digest and leave no other secret. */
  lemma FirstKeysBindSecret(p: Primitives, ss: seq<byte>, ss': seq<byte>)
    requires Sound(p)
    requires var k, k' := Derived(p, None, ss), Derived(p, None, ss');
             k.Some? && k'.Some? && k.value.alice == k'.value.alice && k.value.bob == k'.value.bob
    ensures Derived(p, None, ss).value.alice + Derived(p, None, ss).value.bob == p.h512(ss)
    ensures ss == ss' || Collide(p.h512, ss, ss')
  {
    var t, t' := p.h512(ss), p.h512(ss');
    assert t == t[..KEY_LEN] + t[KEY_LEN..] && t' == t'[..KEY_LEN] + t'[KEY_LEN..];
  }

  /** Equal chain values come from keys with the same exclusive or, or from a collision that is at hand. */
  lemma ChainBindsKeys(p: Primitives, previous: Option<Chain>, ss: seq<byte>, previous': Option<Chain>, ss': seq<byte>)
    requires var k, k' := Derived(p, previous, ss), Derived(p, previous', ss');
             k.Some? && k'.Some? && k.value.chain == k'.value.chain
    ensures var k, k' := Derived(p, previous, ss).value, Derived(p, previous', ss').value;
            Xor(k.alice, k.bob) == Xor(k'.alice, k'.bob) || Collide(p.h256, Xor(k.alice, k.bob), Xor(k'.alice, k'.bob))
  {
  }

  // ---- The chain a rekey builds on ----

  ghost predicate SizedLayers(layers: seq<Layer>)
  {
    forall i :: 0 <= i < |layers| ==> Sized(layers[i].chain)
  }

  predicate Sized(c: Chain)
  {
    |c.chain| == |c.alice| == |c.bob| == KEY_LEN
  }

  lemma {:induction false} ChainsInjective(a: seq<Layer>, b: seq<Layer>)
    requires |a| == |b| && SizedLayers(a) && SizedLayers(b) && Chains(a) == Chains(b)
    ensures forall i :: 0 <= i < |a| ==> a[i].chain.chain == b[i].chain.chain
    decreases |a|
  {
    if a != [] {
      var m := |a| - 1;
      var x, y := Chains(a[..m]), Chains(b[..m]);
      var u, v := a[m].chain.chain, b[m].chain.chain;
      assert Sized(a[m].chain) && Sized(b[m].chain);
      assert |x| == |y| && (x + u)[..|x|] == x && (y + v)[..|y|] == y && (x + u)[|x|..] == u && (y + v)[|y|..] == v;
      ChainsInjective(a[..m], b[..m]);
      forall i | 0 <= i < |a|
        ensures a[i].chain.chain == b[i].chain.chain
      {
        if i < m { assert a[..m][i] == a[i] && b[..m][i] == b[i]; }
      }
    }
  }

  ghost predicate SameChains(a: Ratchet, b: Ratchet)
  {
    |a.message| == |b.message| && forall l :: 0 <= l < |a.message| ==> a.message[l].chain.chain == b.message[l].chain.chain
  }

  /** Each layer goes on with its own keys, and the one chain value for all leaves no choice of the layers' chains. */
  lemma NextChainsBind(p: Primitives, a: Ratchet, b: Ratchet, i: nat)
    requires |a.message| == |b.message| && i < |a.message| && SizedLayers(a.message) && SizedLayers(b.message)
    ensures |NextChains(p, a)| == |a.message| && NextChains(p, a)[i].Some? && NextChains(p, b)[i].Some?
    ensures NextChains(p, a)[i].value.alice == a.message[i].chain.alice
    ensures NextChains(p, a)[i].value.bob == a.message[i].chain.bob
    ensures NextChains(p, a)[i].value.chain == NextChains(p, b)[i].value.chain ==>
              SameChains(a, b) || Collide(p.h256, Chains(a.message), Chains(b.message))
  {
    if NextChains(p, a)[i].value.chain == NextChains(p, b)[i].value.chain && Chains(a.message) == Chains(b.message) {
      ChainsInjective(a.message, b.message);
    }
  }

  // ---- Whole exchanges ----

  /** The secret encapsulated for layer i. */
  function SecretOf(p: Primitives, seed: nat, draw: Draw): seq<byte>
  {
    p.encapsulate(p.publicKey(seed), draw.seed).1
  }

  ghost predicate LayerFrom(p: Primitives, previous: Option<Chain>, secret: seq<byte>, bank: Bank, layer: Layer)
  {
    Derived(p, previous, secret) == Some(layer.chain) && layer.bank == bank
  }

  lemma {:induction false} ExchangeLayers(p: Primitives, a: Proposal, stamp: Stamp, draws: nat -> Draw, scrambleDraw: Draw)
    requires Sound(p) && |a.chains| == |a.seeds| == a.level + 1
    ensures BobFinishes(p, a.chains, Stage0Alice(p, a), stamp, draws, scrambleDraw).Some?
    ensures var bob := BobFinishes(p, a.chains, Stage0Alice(p, a), stamp, draws, scrambleDraw).value.0;
            && |bob.message| == |a.seeds|
            && (forall i :: 0 <= i < |a.seeds| ==>
                  LayerFrom(p, a.chains[i], SecretOf(p, a.seeds[i], draws(i)),
                            Bank(stamp.version, stamp.cid, draws(i).entropy), bob.message[i]))
            && LayerFrom(p, None, SecretOf(p, a.scrambleSeed, scrambleDraw),
                         Bank(stamp.version, stamp.cid, scrambleDraw.entropy), bob.scramble)
  {
    var cs := BobAnswers(p, a, stamp, draws, scrambleDraw);
    var bob := BobFinishes(p, a.chains, Stage0Alice(p, a), stamp, draws, scrambleDraw).value.0;
    forall i | 0 <= i < |a.seeds|
      ensures LayerFrom(p, a.chains[i], SecretOf(p, a.seeds[i], draws(i)),
                        Bank(stamp.version, stamp.cid, draws(i).entropy), bob.message[i])
    {
      assert Made(p, a.chains[i], p.publicKey(a.seeds[i]), a.nonce, stamp, draws(i), cs[i]);
    }
  }

  /**
   Both ends of a first exchange: in every layer, and in the scramble layer, Alice's key for sending followed
   by Bob's is the digest of the secret encapsulated for it, and both hold the bank Bob drew.
   */
  lemma {:induction false} FirstExchangeKeys(p: Primitives, k: Rekey, none: seq<Option<Chain>>, i: nat)
    requires Sound(p) && |none| == k.level + 1 && (forall l :: 0 <= l < |none| ==> none[l] == None) && i < |none|
    ensures var a := ProposalFor(k, none);
            var bob := BobFinishes(p, none, Stage0Alice(p, a), k.stamp, k.draws, k.scrambleDraw);
            && bob.Some? && AliceFinishes(p, a, bob.value.1).Some?
            && var (x, y) := (AliceFinishes(p, a, bob.value.1).value, bob.value.0);
               && |x.message| == |y.message| == |none|
               && x.message[i].EncryptionKey() + y.message[i].EncryptionKey()
                  == p.h512(SecretOf(p, k.seeds(i), k.draws(i)))
               && x.scramble.EncryptionKey() + y.scramble.EncryptionKey()
                  == p.h512(SecretOf(p, k.scrambleSeed, k.scrambleDraw))
               && y.message[i].bank == Bank(k.stamp.version, k.stamp.cid, k.draws(i).entropy)
               && x.message[i].bank.version == k.stamp.version && x.message[i].bank.entropy == k.draws(i).entropy
               && Sized(x.message[i].chain)
  {
    var a := ProposalFor(k, none);
    ExchangeAgrees(p, a, k.stamp, k.draws, k.scrambleDraw);
    ExchangeLayers(p, a, k.stamp, k.draws, k.scrambleDraw);
    RolesAre(p, a, k.stamp, k.draws, k.scrambleDraw, i);
    var bob := BobFinishes(p, none, Stage0Alice(p, a), k.stamp, k.draws, k.scrambleDraw).value;
    assert PairedLayers(AliceFinishes(p, a, bob.1).value.message[i], bob.0.message[i]);
    DigestOfKeys(p, SecretOf(p, k.seeds(i), k.draws(i)));
    DigestOfKeys(p, SecretOf(p, k.scrambleSeed, k.scrambleDraw));
  }

  lemma DigestOfKeys(p: Primitives, ss: seq<byte>)
    requires Sound(p)
    ensures Derived(p, None, ss).Some? && Derived(p, None, ss).value.alice + Derived(p, None, ss).value.bob == p.h512(ss)
  {
    FirstKeysBindSecret(p, ss, ss);
  }

  lemma {:induction false} RolesAre(p: Primitives, a: Proposal, stamp: Stamp, draws: nat -> Draw, scrambleDraw: Draw, i: nat)
    requires Sound(p) && |a.chains| == |a.seeds| == a.level + 1 && i < |a.seeds|
    ensures var bob := BobFinishes(p, a.chains, Stage0Alice(p, a), stamp, draws, scrambleDraw);
            && bob.Some? && |bob.value.0.message| == |a.seeds|
            && bob.value.0.message[i].node == Bob && bob.value.0.scramble.node == Bob
  {
    var cs := BobAnswers(p, a, stamp, draws, scrambleDraw);
    assert Made(p, a.chains[i], p.publicKey(a.seeds[i]), a.nonce, stamp, draws(i), cs[i]);
    ContainersMatch(p, None, a.scrambleSeed, a.scrambleNonce, stamp, scrambleDraw);
  }

  /**
   Both ends of a rekey: layer i is derived from what the layers held before and the new secret, and carries
   the version agreed on, the end's own identifier and the entropy Bob drew.
   */
  lemma {:induction false} RekeyedLayers(p: Primitives, alice: Ratchet, aliceCid: u64, bob: Ratchet, bobCid: u64, k: Rekey, i: nat)
    requires Sound(p) && Paired(alice, bob) && |alice.message| == k.level + 1 && i < |alice.message|
    ensures var out := Rekeyed(p, alice, aliceCid, bob, bobCid, k);
            && out.Some? && |out.value.0.message| == |out.value.1.message| == |alice.message|
            && var (x, y, entropy) := (out.value.0.message[i], out.value.1.message[i], k.draws(i).entropy);
               && LayerFrom(p, NextChains(p, alice)[i], SecretOf(p, k.seeds(i), k.draws(i)),
                            Bank(k.version, aliceCid, entropy), x)
               && LayerFrom(p, NextChains(p, alice)[i], SecretOf(p, k.seeds(i), k.draws(i)),
                            Bank(k.version, bobCid, entropy), y)
               && Sized(x.chain)
  {
    NextChainsAgree(p, alice, bob);
    var a := ProposalFor(k, NextChains(p, alice));
    ExchangeAgrees(p, a, k.stamp, k.draws, k.scrambleDraw);
    ExchangeLayers(p, a, k.stamp, k.draws, k.scrambleDraw);
    var (bob', t) := BobFinishes(p, a.chains, Stage0Alice(p, a), k.stamp, k.draws, k.scrambleDraw).value;
    var alice' := AliceFinishes(p, a, t).value;
    assert PairedLayers(alice'.message[i], bob'.message[i]);
  }

  /** Two different inputs of a hash, with one digest, among those the two rekeys of layer i compute. */
  ghost predicate CollisionAtHand(p: Primitives, a: Ratchet, b: Ratchet, own: Chain, ss: seq<byte>, ss': seq<byte>)
    requires Sound(p)
  {
    var m, m' := p.h256(Chains(a.message)), p.h256(Chains(b.message));
    var t, t' := p.h512(m + ss), p.h512(m' + ss');
    || Collide(p.h256, Chains(a.message), Chains(b.message))
    || Collide(p.h512, m + ss, m' + ss')
    || Collide(p.h256, Xor(own.alice, t[..KEY_LEN]), Xor(own.alice, t'[..KEY_LEN]))
    || Collide(p.h256, Xor(own.bob, t[KEY_LEN..]), Xor(own.bob, t'[KEY_LEN..]))
  }

  /**
   Two rekeys, of layers that went in with the same two keys. If layer i comes out with the same two keys, the
   chain values of all layers went in alike and so did the secret, or there is a collision at hand.
   */
  lemma {:induction false} RekeyBindsPast(p: Primitives, alice: Ratchet, aliceCid: u64, bob: Ratchet, bobCid: u64, k: Rekey,
                                          alice': Ratchet, aliceCid': u64, bob': Ratchet, bobCid': u64, k': Rekey, i: nat)
    requires Sound(p) && Paired(alice, bob) && Paired(alice', bob')
    requires |alice.message| == |alice'.message| == k.level + 1 == k'.level + 1 && i < |alice.message|
    requires SizedLayers(alice.message) && SizedLayers(alice'.message)
    requires alice.message[i].chain.alice == alice'.message[i].chain.alice
    requires alice.message[i].chain.bob == alice'.message[i].chain.bob
    ensures var out := Rekeyed(p, alice, aliceCid, bob, bobCid, k);
            var out' := Rekeyed(p, alice', aliceCid', bob', bobCid', k');
            var ss, ss' := SecretOf(p, k.seeds(i), k.draws(i)), SecretOf(p, k'.seeds(i), k'.draws(i));
            && out.Some? && out'.Some? && i < |out.value.0.message| && i < |out'.value.0.message|
            && var x, x' := out.value.0.message[i].chain, out'.value.0.message[i].chain;
               x.alice == x'.alice && x.bob == x'.bob ==>
                 (SameChains(alice, alice') && ss == ss') || CollisionAtHand(p, alice, alice', alice.message[i].chain, ss, ss')
  {
    RekeyedLayers(p, alice, aliceCid, bob, bobCid, k, i);
    RekeyedLayers(p, alice', aliceCid', bob', bobCid', k', i);
    NextChainsBind(p, alice, alice', i);
    var own := alice.message[i].chain;
    assert Sized(own);
    var m, m' := p.h256(Chains(alice.message)), p.h256(Chains(alice'.message));
    var ss, ss' := SecretOf(p, k.seeds(i), k.draws(i)), SecretOf(p, k'.seeds(i), k'.draws(i));
    var d, d' := Derived(p, Some(Chain(m, own.alice, own.bob)), ss), Derived(p, Some(Chain(m', own.alice, own.bob)), ss');
    assert NextChains(p, alice)[i] == Some(Chain(m, own.alice, own.bob));
    if d.value.alice == d'.value.alice && d.value.bob == d'.value.bob {
      KeysBindChainAndSecret(p, Chain(m, own.alice, own.bob), m', ss, ss');
    }
  }

  // ---- What Alice accepts ----

  /** Container i of an accepted answer: Bob's bank opened under the key derived for Bob. */
  ghost predicate Opens(p: Primitives, previous: Option<Chain>, seed: nat, ct: seq<byte>, nonce: seq<byte>, sealed: seq<byte>, layer: Layer)
  {
    && layer.node == Alice && p.decapsulate(seed, ct).Some?
    && Derived(p, previous, p.decapsulate(seed, ct).value) == Some(layer.chain)
    && p.open(layer.chain.bob, nonce, sealed).Some?
    && p.read(p.open(layer.chain.bob, nonce, sealed).value) == Some(layer.bank)
  }

  lemma {:induction false} AliceContainersOpen(p: Primitives, a: Proposal, t: ToAlice, n: nat, i: nat)
    requires i < n <= |a.chains| && n <= |a.seeds| && AliceContainers(p, a, t, n).Some?
    ensures |AliceContainers(p, a, t, n).value| == n <= |t.ciphertexts| && n <= |t.banks|
    ensures Opens(p, a.chains[i], a.seeds[i], t.ciphertexts[i], a.nonce, t.banks[i], AliceContainers(p, a, t, n).value[i])
  {
    if n > 1 { AliceContainersOpen(p, a, t, n - 1, if i < n - 1 then i else 0); }
  }

  /** Whatever answer comes: if Alice finishes, every bank in it opened, and the first and the scramble bank agree. */
  lemma {:induction false} AcceptedAnswerOpens(p: Primitives, a: Proposal, t: ToAlice, i: nat)
    requires |a.chains| == |a.seeds| && AliceFinishes(p, a, t).Some?
    ensures var r := AliceFinishes(p, a, t).value;
            && 0 < |r.message| == |a.seeds| <= |t.ciphertexts| && |a.seeds| <= |t.banks|
            && (i < |a.seeds| ==> Opens(p, a.chains[i], a.seeds[i], t.ciphertexts[i], a.nonce, t.banks[i], r.message[i]))
            && Opens(p, None, a.scrambleSeed, t.scrambleCiphertext, a.scrambleNonce, t.scrambleBank, r.scramble)
            && r.scramble.bank.version == r.message[0].bank.version && r.scramble.bank.cid == r.message[0].bank.cid
  {
    if a.seeds != [] { AliceContainersOpen(p, a, t, |a.seeds|, if i < |a.seeds| then i else 0); }
  }
}
