/** The nonce numbers of all waves a session sends, over any messages and transfers. */
module SessionNonces {
  import opened Words
  import opened Arith
  import opened Nonces
  import opened GroupLayout
  import opened Streaming
  import opened FileTransfer

  /** Group k of a transfer begins inside the file. */
  lemma {:induction false} GroupBegins(length: nat, size: nat, k: nat)
    requires size > 0 && k < DivCeil(length, size)
    ensures k * size < length
  {
    DivCeilBounds(length, size);
    ProductMonotone(k, DivCeil(length, size) - 1, size);
  }

  /** Bytes in group k of a transfer. */
  function GroupLength(r: Request, k: nat): (n: nat)
    requires r.Valid() && k < r.GroupCount()
    ensures 0 < n <= r.GroupSize() <= MAX_BYTES_PER_GROUP
  {
    GroupBegins(r.length, r.GroupSize(), k);
    Min(r.GroupSize(), r.length - k * r.GroupSize())
  }

  /** Waves of group k of a request; a message and a refused transfer have none. */
  function WaveCount(r: Request, k: nat, width: nat): nat
    requires r.Valid() && width >= 1
  {
    if k >= r.GroupCount() then 0 else Metadata(GroupLength(r, k), width, 0).value.waveCount
  }

  /** These are the waves cut from the groups of the file. */
  lemma {:induction false} WavesSent(source: seq<byte>, r: Request, id: nat, k: nat, width: nat)
    requires r.Valid() && k < r.GroupCount() && r.length == |source| && width >= 1
    ensures k < |Groups(source, r.GroupSize(), id)|
    ensures var g := Groups(source, r.GroupSize(), id)[k];
            g.id == id + k && |Waves(g.bytes, width)| == WaveCount(r, k, width)
  {
    GroupBegins(r.length, r.GroupSize(), k);
    GroupAt(source, r.GroupSize(), id, k);
    var g := Groups(source, r.GroupSize(), id)[k];
    assert |g.bytes| == GroupLength(r, k);
    ConfigDescribes(g.bytes, width, 0);
  }

  lemma WaveCountSmall(r: Request, k: nat, width: nat)
    requires r.Valid() && width >= 1
    ensures WaveCount(r, k, width) < TWO32
    ensures k < r.GroupCount() ==> WaveCount(r, k, width) >= 1
  {
    if k < r.GroupCount() { FewWaves(GroupLength(r, k), width); }
  }

  lemma FewWaves(length: nat, width: nat)
    requires length > 0 && width >= 1
    ensures 1 <= Metadata(length, width, 0).value.waveCount <= length + 1
  {
    var m := PlainPerWave(width);
    QuotientAtMost(length, m);
    if length % m == 0 && length >= m { DivStep(length, m); }
  }

  lemma QuotientAtMost(n: nat, d: nat)
    requires d > 0
    ensures n / d <= n
  {
    assert n == (n / d) * d + n % d;
    if n / d > 0 { ProductMonotone(1, d, n / d); }
  }

  // ---- Waves and their numbers ----

  /** Wave `wave` of group `group` of request `request`. */
  datatype Place = Place(request: nat, group: nat, wave: nat)

  ghost predicate Sent(rs: seq<Request>, width: nat, p: Place)
    requires Sendable(rs) && width >= 1
  {
    p.request < |rs| && p.group < rs[p.request].GroupCount() && p.wave < WaveCount(rs[p.request], p.group, width)
  }

  /** The identifier of the place's group, counted from the start of the session. */
  function Identifier(rs: seq<Request>, p: Place): nat
    requires Sendable(rs) && p.request < |rs|
  {
    Reserved(rs, p.request) + p.group
  }

  /** The number for a wave of the group with an identifier of 64 bits. */
  function WaveNumber(wave: nat, id: nat): u64
  {
    NonceVersion(wave, id % TWO64)
  }

  lemma SmallNumbersDiffer(w: nat, g: nat, v: nat, h: nat)
    requires w < TWO32 && g < TWO32 && v < TWO32 && h < TWO32 && (w, g) != (v, h)
    ensures WaveNumber(w, g) != WaveNumber(v, h)
  {
    Below64(g);
    Below64(h);
    NonceVersionsDistinct(w, g, v, h);
  }

  lemma Below64(id: nat)
    requires id < TWO64
    ensures id % TWO64 == id
  {
  }

  function Number(rs: seq<Request>, p: Place): u64
    requires Sendable(rs) && p.request < |rs|
  {
    WaveNumber(p.wave, Identifier(rs, p))
  }

  /** It is what the scrambler computes from the identifier its transfer was given in a new session. */
  lemma NumberOfStart(rs: seq<Request>, p: Place, start: u64)
    requires Sendable(rs) && p.request < |rs| && CounterAt(0, rs, p.request, start)
    ensures Number(rs, p) == NonceVersion(p.wave, (start + p.group) % TWO64)
  {
    WrappedSum(Reserved(rs, p.request), p.group);
  }

  ghost predicate NumbersDistinct(rs: seq<Request>, width: nat)
    requires Sendable(rs) && width >= 1
  {
    forall p, q :: Sent(rs, width, p) && Sent(rs, width, q) && p != q ==> Number(rs, p) != Number(rs, q)
  }

  lemma {:induction false} PlacesDiffer(rs: seq<Request>, width: nat, p: Place, q: Place)
    requires Sendable(rs) && width >= 1 && Sent(rs, width, p) && Sent(rs, width, q)
    ensures Identifier(rs, p) < Reserved(rs, |rs|) && Identifier(rs, q) < Reserved(rs, |rs|)
    ensures p.wave < TWO32 && q.wave < TWO32
    ensures p != q <==> (p.wave, Identifier(rs, p)) != (q.wave, Identifier(rs, q))
  {
    WaveCountSmall(rs[p.request], p.group, width);
    WaveCountSmall(rs[q.request], q.group, width);
    IdentifiersDistinct(rs, p.request, p.group, q.request, q.group);
  }

  lemma {:induction false} EarlyNumbersDiffer(rs: seq<Request>, width: nat, p: Place, q: Place)
    requires Sendable(rs) && width >= 1 && Sent(rs, width, p) && Sent(rs, width, q) && p != q
    requires Identifier(rs, p) < TWO32 && Identifier(rs, q) < TWO32
    ensures Number(rs, p) != Number(rs, q)
  {
    PlacesDiffer(rs, width, p, q);
    SmallNumbersDiffer(p.wave, Identifier(rs, p), q.wave, Identifier(rs, q));
  }

  lemma {:induction false} NumbersDiffer(rs: seq<Request>, width: nat)
    requires Sendable(rs) && width >= 1 && Reserved(rs, |rs|) <= TWO32
    ensures NumbersDistinct(rs, width)
  {
    forall p, q | Sent(rs, width, p) && Sent(rs, width, q) && p != q
      ensures Number(rs, p) != Number(rs, q)
    {
      PlacesDiffer(rs, width, p, q);
      EarlyNumbersDiffer(rs, width, p, q);
    }
  }

  // ---- What is encrypted under a number ----

  /** The files of the transfers, and where the counter of a new session stood when each was taken up. */
  ghost predicate Session(rs: seq<Request>, sources: seq<seq<byte>>, starts: seq<u64>)
  {
    && Sendable(rs) && |sources| == |starts| == |rs|
    && (forall i :: 0 <= i < |rs| && rs[i].File? ==> |sources[i]| == rs[i].length)
    && (forall i :: 0 <= i < |rs| ==> CounterAt(0, rs, i, starts[i]))
  }

  /** The group a place is in, as the scrambler cuts it. */
  function GroupOf(rs: seq<Request>, sources: seq<seq<byte>>, starts: seq<u64>, width: nat, p: Place): Group
    requires Session(rs, sources, starts) && width >= 1 && Sent(rs, width, p)
  {
    WavesSent(sources[p.request], rs[p.request], starts[p.request], p.group, width);
    Groups(sources[p.request], rs[p.request].GroupSize(), starts[p.request])[p.group]
  }

  /** Packet j of the wave has number wave * width + j and carries slot j of `cipher`. */
  ghost predicate PacketIs(ps: seq<(nat, seq<byte>)>, width: nat, wave: nat, j: nat, cipher: seq<byte>)
  {
    var n := wave * width + j;
    n < |ps| && j * MAX_PAYLOAD < |cipher| && ps[n] == (n, Slot(cipher, j))
  }

  /** Wave `wave`, of `size` bytes, goes out as `cipher` cut in slots. */
  ghost predicate GoesOutAs(ps: seq<(nat, seq<byte>)>, width: nat, wave: nat, size: nat, cipher: seq<byte>)
  {
    forall j :: 0 <= j < PacketCount(size) ==> PacketIs(ps, width, wave, j, cipher)
  }

  /** The packets sent for the place are what the ratchet's cipher makes of its wave under `number`. */
  ghost predicate EncryptedUnder(c: Cipher, g: Group, width: nat, wave: nat, number: u64)
    requires width >= 1 && wave < |Waves(g.bytes, width)|
  {
    var text := Waves(g.bytes, width)[wave];
    GoesOutAs(PacketsOf(c, g, width), width, wave, |text|, c.encrypt(number, text))
  }

  lemma {:induction false} WaveGoesOut(c: Cipher, width: nat, waves: seq<seq<byte>>, wave: nat)
    requires Correct(c) && Shaped(waves, width) && wave < |waves|
    ensures GoesOutAs(GroupPackets(c, width, waves, |waves|), width, wave, |waves[wave]|, c.encrypt(wave, waves[wave]))
  {
    forall j | 0 <= j < PacketCount(|waves[wave]|)
      ensures PacketIs(GroupPackets(c, width, waves, |waves|), width, wave, j, c.encrypt(wave, waves[wave]))
    {
      EmittedAt(c, width, waves, |waves|, wave, j);
    }
  }

  lemma GroupEncrypts(c: Cipher, g: Group, width: nat, wave: nat)
    requires Correct(c) && width >= 1 && g.bytes != [] && wave < |Waves(g.bytes, width)|
    ensures EncryptedUnder(c, g, width, wave, NonceVersion(wave, g.id % TWO64))
  {
    var cg, waves := ForGroup(c, g.id % TWO64), Waves(g.bytes, width);
    ForGroupCorrect(c, g.id % TWO64);
    ConfigDescribes(g.bytes, width, 0);
    WaveGoesOut(cg, width, waves, wave);
    assert cg.encrypt(wave, waves[wave]) == c.encrypt(NonceVersion(wave, g.id % TWO64), waves[wave]);
  }

  /** Every wave of the session is encrypted by one call of the cipher, and the nonce number it is given is the place's. */
  lemma {:induction false} WaveEncryptedUnderNumber(c: Cipher, rs: seq<Request>, sources: seq<seq<byte>>, starts: seq<u64>,
                                                    width: nat, p: Place)
    requires Correct(c) && Session(rs, sources, starts) && width >= 1 && Sent(rs, width, p)
    ensures var g := GroupOf(rs, sources, starts, width, p);
            p.wave < |Waves(g.bytes, width)| && EncryptedUnder(c, g, width, p.wave, Number(rs, p))
  {
    var start := starts[p.request];
    WavesSent(sources[p.request], rs[p.request], start, p.group, width);
    NumberOfStart(rs, p, start);
    GroupEncrypts(c, GroupOf(rs, sources, starts, width, p), width, p.wave);
  }

  /** Different waves of the session are encrypted by calls with different numbers. */
  ghost predicate NoNonceShared(c: Cipher, rs: seq<Request>, sources: seq<seq<byte>>, starts: seq<u64>, width: nat)
    requires Session(rs, sources, starts) && width >= 1
  {
    forall p, q :: Sent(rs, width, p) && Sent(rs, width, q) && p != q ==>
      && Number(rs, p) != Number(rs, q)
      && Encrypts(c, GroupOf(rs, sources, starts, width, p), width, p.wave, Number(rs, p))
      && Encrypts(c, GroupOf(rs, sources, starts, width, q), width, q.wave, Number(rs, q))
  }

  ghost predicate Encrypts(c: Cipher, g: Group, width: nat, wave: nat, number: u64)
    requires width >= 1
  {
    wave < |Waves(g.bytes, width)| && EncryptedUnder(c, g, width, wave, number)
  }

  /**
   Over any interleaving of messages and transfers, refused ones among them, no two waves are encrypted
   under the same number as long as no more than 2^32 identifiers are taken.
   */
  lemma {:induction false} NoNonceSharedInSession(c: Cipher, rs: seq<Request>, sources: seq<seq<byte>>, starts: seq<u64>, width: nat)
    requires Correct(c) && Session(rs, sources, starts) && width >= 1 && Reserved(rs, |rs|) <= TWO32
    ensures NoNonceShared(c, rs, sources, starts, width)
  {
    NumbersDiffer(rs, width);
    forall p | Sent(rs, width, p)
      ensures Encrypts(c, GroupOf(rs, sources, starts, width, p), width, p.wave, Number(rs, p))
    {
      WaveEncryptedUnderNumber(c, rs, sources, starts, width, p);
    }
  }

  /** The identifier belongs to a group of a transfer. */
  ghost predicate FileAt(rs: seq<Request>, width: nat, id: nat)
    requires Sendable(rs) && width >= 1
  {
    exists p :: Sent(rs, width, p) && Identifier(rs, p) == id && p.wave == 0
  }

  /** Where identifiers 0 and 2^32, once taken, belong to transfers, that bound is exact. */
  lemma {:induction false} NoncesDistinctExactly(rs: seq<Request>, width: nat)
    requires Sendable(rs) && width >= 1
    requires Reserved(rs, |rs|) > TWO32 ==> FileAt(rs, width, 0) && FileAt(rs, width, TWO32)
    ensures NumbersDistinct(rs, width) <==> Reserved(rs, |rs|) <= TWO32
  {
    if Reserved(rs, |rs|) <= TWO32 {
      NumbersDiffer(rs, width);
    } else {
      var p :| Sent(rs, width, p) && Identifier(rs, p) == 0 && p.wave == 0;
      var q :| Sent(rs, width, q) && Identifier(rs, q) == TWO32 && q.wave == 0;
      NonceWraps();
      assert Number(rs, p) == Number(rs, q);
    }
  }

  /** Wave w of the group with identifier 2^32 has number w, which is that of wave a of group b. */
  lemma {:induction false} NumberAtBound(w: nat, a: nat, b: nat)
    requires w < TWO32 && a < TWO32 && b < TWO32
    ensures WaveNumber(w, TWO32) == w
    ensures WaveNumber(w, TWO32) == WaveNumber(a, b) <==> (a, b) == Unpair(w)
  {
    Below64(TWO32);
    Below64(b);
    WrapsToWave(w);
    FitsUnchanged(a, b);
    PairBijection(a, b, w);
  }

  lemma WrapsToWave(w: nat)
    requires w < TWO32
    ensures NonceVersion(w, TWO32) == w
  {
    assert TWO32 * TWO32 == TWO64;
    assert Pair(w, TWO32) == w + TWO64;
  }

  lemma FitsUnchanged(a: nat, b: nat)
    requires a < TWO32 && b < TWO32
    ensures NonceVersion(a, b) == Pair(a, b)
  {
    NonceFits(a, b);
  }

  /** A wave of group 2^32 and the wave whose number it takes. */
  ghost predicate Clash(rs: seq<Request>, width: nat, p: Place, q: Place)
    requires Sendable(rs) && width >= 1
  {
    Sent(rs, width, p) && Sent(rs, width, q) && Identifier(rs, p) == TWO32 && (q.wave, Identifier(rs, q)) == Unpair(p.wave)
  }

  lemma {:induction false} ClashExactly(rs: seq<Request>, width: nat, p: Place, q: Place)
    requires Sendable(rs) && width >= 1 && Sent(rs, width, p) && Sent(rs, width, q)
    requires Identifier(rs, p) == TWO32 && Identifier(rs, q) < TWO32
    ensures Number(rs, p) == Number(rs, q) <==> Clash(rs, width, p, q)
  {
    PlacesDiffer(rs, width, p, q);
    NumberAtBound(p.wave, q.wave, Identifier(rs, q));
  }

  lemma {:induction false} SameGroupNumbersDiffer(rs: seq<Request>, width: nat, p: Place, q: Place)
    requires Sendable(rs) && width >= 1 && Sent(rs, width, p) && Sent(rs, width, q) && p != q
    requires Identifier(rs, p) == Identifier(rs, q) == TWO32
    ensures Number(rs, p) != Number(rs, q)
  {
    PlacesDiffer(rs, width, p, q);
    NumberAtBound(p.wave, 0, 0);
    NumberAtBound(q.wave, 0, 0);
  }

  /** A clash has its second wave in an earlier group. */
  lemma {:induction false} ClashIsEarlier(rs: seq<Request>, width: nat, p: Place, q: Place)
    requires Sendable(rs) && width >= 1 && Clash(rs, width, p, q)
    ensures Identifier(rs, q) < TWO32
  {
    PlacesDiffer(rs, width, p, q);
    PairOfUnpair(p.wave);
    ShellBounds(q.wave, Identifier(rs, q));
    if Identifier(rs, q) >= TWO32 { SquaresGrow(TWO32, Shell(q.wave, Identifier(rs, q))); }
  }

  /** One identifier past the bound, numbers are shared exactly when group 2^32 clashes with an earlier one. */
  lemma {:induction false} NoncesAtTheBound(rs: seq<Request>, width: nat)
    requires Sendable(rs) && width >= 1 && Reserved(rs, |rs|) <= TWO32 + 1
    ensures NumbersDistinct(rs, width) <==> !exists p, q :: Clash(rs, width, p, q)
  {
    if p, q :| Clash(rs, width, p, q) {
      ClashIsEarlier(rs, width, p, q);
      ClashExactly(rs, width, p, q);
    } else {
      forall p, q | Sent(rs, width, p) && Sent(rs, width, q) && p != q
        ensures Number(rs, p) != Number(rs, q)
      {
        PlacesDiffer(rs, width, p, q);
        if Identifier(rs, p) < TWO32 && Identifier(rs, q) < TWO32 { EarlyNumbersDiffer(rs, width, p, q); }
        else if Identifier(rs, p) == Identifier(rs, q) { SameGroupNumbersDiffer(rs, width, p, q); }
        else if Identifier(rs, p) == TWO32 { ClashExactly(rs, width, p, q); }
        else { ClashExactly(rs, width, q, p); }
      }
    }
  }

  /** A file of 2^32 + 1 groups of one byte is such a session. */
  lemma {:induction false} LargeFileRepeatsNumber(width: nat)
    requires width >= 1
    ensures var rs := [File(TWO32 + 1, Some(1))]; Sendable(rs) && !NumbersDistinct(rs, width)
  {
    var f := File(TWO32 + 1, Some(1));
    var rs := [f];
    DivCeilUnique(TWO32 + 1, 1, TWO32, 1);
    assert f.GroupCount() == TWO32 + 1;
    assert Reserved(rs, 1) == Reserved(rs, 0) + f.Needs() == TWO32 + 1;
    WaveCountSmall(f, 0, width);
    WaveCountSmall(f, TWO32, width);
    assert Sent(rs, width, Place(0, 0, 0)) && Sent(rs, width, Place(0, TWO32, 0));
    NoncesDistinctExactly(rs, width);
  }
}
