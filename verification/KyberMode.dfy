/**
 The hybrid cipher (citadel_pqcrypto/src/encryption.rs, kyber_module) and the block scrambling it uses
 (citadel_pqcrypto/src/wire.rs): sign, encrypt, scramble, wrap the scrambling key, add a checksum.
 */
module KyberMode {
  import opened Words
  import opened Bytes

  const BLOCK: nat := 32
  const DIGEST: nat := 32
  const LENGTH: nat := 8
  const AES_GCM_NONCE_LENGTH_BYTES: nat := 12
  const TAG: nat := 16

  /** The prefix of at most n bytes. */
  function Truncated(s: seq<byte>, n: nat): (r: seq<byte>)
    ensures r <= s && |r| <= n && (|r| < n ==> r == s)
  {
    if n < |s| then s[..n] else s
  }

  /** A growable buffer seen through a window (citadel_pqcrypto/src/bytes_in_place.rs). */
  class InPlaceBuffer {
    var inner: seq<byte>
    var start: nat
    var end: nat

    /** The window is the whole buffer: what as_ref and as_mut give is what len counts. */
    ghost predicate Valid()
      reads this
    {
      start == 0 && end == |inner|
    }

    constructor (bytes: seq<byte>)
      ensures Valid() && inner == bytes
    {
      inner, start, end := bytes, 0, |bytes|;
    }

    method ExtendFromSlice(other: seq<byte>)
      modifies this
      ensures inner == old(inner) + other && start == old(start) && end == old(end) + |other|
      ensures old(Valid()) ==> Valid()
    {
      end := end + |other|;
      inner := inner + other;
    }

    /** The window follows the length asked for, even past the end of what there is. */
    method Truncate(len: nat)
      modifies this
      ensures inner == Truncated(old(inner), len) && start == old(start) && end == len
      ensures old(Valid()) ==> (Valid() <==> len <= old(|inner|))
    {
      end := len;
      inner := Truncated(inner, len);
    }

    /** What a cipher leaves in the buffer: it writes through the window, extends and truncates. */
    method Become(bytes: seq<byte>)
      requires Valid()
      modifies this
      ensures Valid() && inner == bytes
    {
      inner, end := bytes, |bytes|;
    }
  }

  // ---- Scrambling ----

  predicate IsDictionary(mapping: seq<byte>)
  {
    |mapping| == BLOCK
  }

  /** wrapping_add and wrapping_sub on a byte. */
  function Shift(b: byte, shift: byte, reverse: bool): byte
  {
    if reverse then (b - shift) % 256 else (b + shift) % 256
  }

  /** Every block shifted by the dictionary, byte by byte. */
  function Shifted(mapping: seq<byte>, s: seq<byte>, reverse: bool): (r: seq<byte>)
    requires IsDictionary(mapping)
    ensures |r| == |s|
  {
    seq(|s|, (k: int) requires 0 <= k < |s| => Shift(s[k], mapping[k % BLOCK], reverse))
  }

  /** Byte b is a moved on by `shift` around the circle of 256. */
  predicate MovedOn(a: byte, b: byte, shift: byte)
  {
    b - a == shift || b - a == shift - 256
  }

  /** Each byte is moved on by the dictionary's entry for its place in the block; reversed, moved back by it. */
  ghost predicate Scrambles(mapping: seq<byte>, s: seq<byte>, t: seq<byte>, reverse: bool)
    requires IsDictionary(mapping)
  {
    && |t| == |s|
    && forall k :: 0 <= k < |s| ==>
         if reverse then MovedOn(t[k], s[k], mapping[k % BLOCK]) else MovedOn(s[k], t[k], mapping[k % BLOCK])
  }

  lemma ShiftedScrambles(mapping: seq<byte>, s: seq<byte>, reverse: bool)
    requires IsDictionary(mapping)
    ensures Scrambles(mapping, s, Shifted(mapping, s, reverse), reverse)
  {
  }

  /** The bytes moved on are determined, and so is the dictionary they were moved by. */
  lemma ScramblesOneWay(mapping: seq<byte>, s: seq<byte>, t: seq<byte>, u: seq<byte>, reverse: bool)
    requires IsDictionary(mapping) && Scrambles(mapping, s, t, reverse) && Scrambles(mapping, s, u, reverse)
    ensures t == u
  {
    forall k | 0 <= k < |s|
      ensures t[k] == u[k]
    {
      assert if reverse then MovedOn(t[k], s[k], mapping[k % BLOCK]) else MovedOn(s[k], t[k], mapping[k % BLOCK]);
      assert if reverse then MovedOn(u[k], s[k], mapping[k % BLOCK]) else MovedOn(s[k], u[k], mapping[k % BLOCK]);
    }
  }

  /** A block of zeros scrambles to the dictionary. */
  lemma ZeroBlockReveals(mapping: seq<byte>, zeros: seq<byte>)
    requires IsDictionary(mapping) && |zeros| == BLOCK && forall k :: 0 <= k < BLOCK ==> zeros[k] == 0
    ensures Shifted(mapping, zeros, false) == mapping
  {
  }

  /** Whatever the text, dictionaries that scramble one whole block of it alike are the same. */
  lemma ScrambledBlockBindsDictionary(mapping: seq<byte>, other: seq<byte>, s: seq<byte>)
    requires IsDictionary(mapping) && IsDictionary(other) && |s| >= BLOCK
    requires Shifted(mapping, s, false) == Shifted(other, s, false)
    ensures mapping == other
  {
    ShiftedScrambles(mapping, s, false);
    ShiftedScrambles(other, s, false);
    forall k | 0 <= k < BLOCK
      ensures mapping[k] == other[k]
    {
      var t := Shifted(mapping, s, false);
      assert MovedOn(s[k], t[k], mapping[k % BLOCK]) && MovedOn(s[k], t[k], other[k % BLOCK]);
    }
  }

  /** How many random bytes are put behind n bytes. */
  function Padding(n: nat): nat
  {
    if n % BLOCK != 0 || n == 0 then BLOCK - n % BLOCK else 0
  }

  method SwapInPlace(mapping: seq<byte>, chunk: seq<byte>, reverse: bool) returns (r: Result<seq<byte>>)
    requires IsDictionary(mapping)
    ensures r == if |chunk| == BLOCK then Ok(Shifted(mapping, chunk, reverse)) else Err
    ensures r.Ok? ==> Scrambles(mapping, chunk, r.value, reverse)
  {
    if |chunk| != |mapping| {
      return Err;
    }
    var out := chunk;
    for k := 0 to |mapping|
      invariant |out| == |chunk|
      invariant forall i :: 0 <= i < k ==> out[i] == Shift(chunk[i], mapping[i], reverse)
      invariant forall i :: k <= i < |chunk| ==> out[i] == chunk[i]
    {
      out := out[k := Shift(out[k], mapping[k], reverse)];
    }
    assert out == Shifted(mapping, chunk, reverse);
    ShiftedScrambles(mapping, chunk, reverse);
    return Ok(out);
  }

  /** The least that makes a positive number of whole blocks. */
  lemma PaddingIsLeast(n: nat, k: nat)
    ensures (n + Padding(n)) % BLOCK == 0 && n + Padding(n) > 0
    ensures (n + k) % BLOCK == 0 && n + k > 0 ==> Padding(n) <= k
  {
  }

  /** The text with its first `at` bytes shifted. */
  function PartShifted(mapping: seq<byte>, s: seq<byte>, at: nat, reverse: bool): (r: seq<byte>)
    requires IsDictionary(mapping) && at <= |s|
    ensures |r| == |s|
  {
    Shifted(mapping, s[..at], reverse) + s[at..]
  }

  lemma OneBlockMore(mapping: seq<byte>, s: seq<byte>, at: nat, reverse: bool)
    requires IsDictionary(mapping) && at % BLOCK == 0 && at + BLOCK <= |s|
    ensures var t := PartShifted(mapping, s, at, reverse);
            && t[at..at + BLOCK] == s[at..at + BLOCK]
            && t[..at] + Shifted(mapping, t[at..at + BLOCK], reverse) + t[at + BLOCK..]
               == PartShifted(mapping, s, at + BLOCK, reverse)
  {
    ShiftedAppend(mapping, s[..at], s[at..at + BLOCK], reverse);
    assert s[..at + BLOCK] == s[..at] + s[at..at + BLOCK];
  }

  lemma WholeBlocks(at: nat, n: nat)
    requires at % BLOCK == 0 && n % BLOCK == 0 && at <= n
    ensures (at + BLOCK) % BLOCK == 0 && (n < at + BLOCK ==> at == n)
  {
  }

  lemma PartShiftedEnds(mapping: seq<byte>, s: seq<byte>, reverse: bool)
    requires IsDictionary(mapping)
    ensures PartShifted(mapping, s, 0, reverse) == s && PartShifted(mapping, s, |s|, reverse) == Shifted(mapping, s, reverse)
  {
    assert s[..|s|] == s;
  }

  /** chunks_exact_mut over the buffer */
  method SwapBlocks(mapping: seq<byte>, buf: InPlaceBuffer, reverse: bool)
    requires buf.Valid() && IsDictionary(mapping) && |buf.inner| % BLOCK == 0
    modifies buf
    ensures buf.Valid() && buf.inner == Shifted(mapping, old(buf.inner), reverse)
  {
    ghost var was := buf.inner;
    PartShiftedEnds(mapping, was, reverse);
    var at: nat := 0;
    while at + BLOCK <= |buf.inner|
      invariant buf.Valid() && at % BLOCK == 0 && at <= |was|
      invariant buf.inner == PartShifted(mapping, was, at, reverse)
    {
      OneBlockMore(mapping, was, at, reverse);
      WholeBlocks(at, |was|);
      var r := SwapInPlace(mapping, buf.inner[at..at + BLOCK], reverse);
      buf.inner := buf.inner[..at] + r.value + buf.inner[at + BLOCK..];
      at := at + BLOCK;
    }
    WholeBlocks(at, |was|);
  }

  lemma BlockIndex(n: nat, k: nat)
    requires n % BLOCK == 0
    ensures (n + k) % BLOCK == k % BLOCK
  {
  }

  lemma ShiftedAppend(mapping: seq<byte>, a: seq<byte>, b: seq<byte>, reverse: bool)
    requires IsDictionary(mapping) && |a| % BLOCK == 0
    ensures Shifted(mapping, a + b, reverse) == Shifted(mapping, a, reverse) + Shifted(mapping, b, reverse)
  {
    var whole, parts := Shifted(mapping, a + b, reverse), Shifted(mapping, a, reverse) + Shifted(mapping, b, reverse);
    forall k | 0 <= k < |whole|
      ensures whole[k] == parts[k]
    {
      if k >= |a| { BlockIndex(|a|, k - |a|); }
    }
  }

  method ScrambleInPlace(mapping: seq<byte>, buf: InPlaceBuffer, random: seq<byte>)
    requires buf.Valid() && IsDictionary(mapping) && |random| == Padding(|buf.inner|)
    modifies buf
    ensures buf.Valid() && buf.inner == Shifted(mapping, old(buf.inner) + random, false)
    ensures Scrambles(mapping, old(buf.inner) + random, buf.inner, false)
  {
    ShiftedScrambles(mapping, buf.inner + random, false);
    buf.ExtendFromSlice(random);
    SwapBlocks(mapping, buf, false);
  }

  method DescrambleInPlace(mapping: seq<byte>, buf: InPlaceBuffer) returns (ok: bool)
    requires buf.Valid() && IsDictionary(mapping)
    modifies buf
    ensures buf.Valid() && (ok <==> old(|buf.inner|) % BLOCK == 0)
    ensures buf.inner == if ok then Shifted(mapping, old(buf.inner), true) else old(buf.inner)
    ensures ok ==> Scrambles(mapping, old(buf.inner), buf.inner, true)
  {
    ShiftedScrambles(mapping, buf.inner, true);
    if |buf.inner| % BLOCK != 0 {
      return false;
    }
    SwapBlocks(mapping, buf, true);
    return true;
  }

  lemma ShiftUndone(mapping: seq<byte>, s: seq<byte>)
    requires IsDictionary(mapping)
    ensures Shifted(mapping, Shifted(mapping, s, false), true) == s
  {
  }

  /** Scrambling pads to whole blocks, and descrambling and cutting gives back what there was. */
  lemma DescramblesToInput(mapping: seq<byte>, s: seq<byte>, random: seq<byte>)
    requires IsDictionary(mapping) && |random| == Padding(|s|)
    ensures var scrambled := Shifted(mapping, s + random, false);
            && |scrambled| % BLOCK == 0 && |scrambled| > 0
            && Shifted(mapping, scrambled, true)[..|s|] == s
  {
    ShiftUndone(mapping, s + random);
  }

  // ---- The cipher ----

  /** The primitives of one direction: what the sender uses and what the receiver answers them with. */
  datatype Channel = Channel(
    hash: seq<byte> -> seq<byte>,
    sign: seq<byte> -> seq<byte>,
    verify: (seq<byte>, seq<byte>) -> bool,
    seal: (seq<byte>, seq<byte>, seq<byte>) -> seq<byte>,
    open: (seq<byte>, seq<byte>, seq<byte>) -> Option<seq<byte>>,
    wrap: (seq<byte>, seq<byte>) -> seq<byte>,
    unwrap: seq<byte> -> Option<seq<byte>>)

  ghost predicate Matched(ch: Channel)
  {
    && (forall s: seq<byte> :: |ch.hash(s)| == DIGEST)
    && (forall d: seq<byte> :: ch.verify(d, ch.sign(d)))
    && (forall n: seq<byte>, ad: seq<byte>, p: seq<byte> ::
          |ch.seal(n, ad, p)| == |p| + TAG && ch.open(n, ad, ch.seal(n, ad, p)) == Some(p))
    && (forall n: seq<byte>, d: seq<byte> :: ch.unwrap(ch.wrap(n, d)) == Some(d))
  }

  /** There are such primitives. */
  lemma MatchedExists() returns (ch: Channel)
    ensures Matched(ch)
  {
    var tag: seq<byte> := seq(TAG, _ => 0);
    var digest: seq<byte> := seq(DIGEST, _ => 0);
    ch := Channel(_ => digest, _ => [], (d, signature) => true, (n, ad, p) => p + tag,
                  (n, ad, c) => if |c| < TAG then None else Some(c[..|c| - TAG]), (n, d) => d, c => Some(c));
    forall n: seq<byte>, ad: seq<byte>, p: seq<byte>
      ensures |ch.seal(n, ad, p)| == |p| + TAG && ch.open(n, ad, ch.seal(n, ad, p)) == Some(p)
    {
      assert (p + tag)[..|p|] == p;
    }
  }

  function Signed(ch: Channel, ad: seq<byte>, input: seq<byte>): seq<byte>
  {
    var signature := ch.sign(ch.hash(ad + input));
    input + signature + BigEndian(|signature|, LENGTH)
  }

  function Enclosed(ch: Channel, nonce: seq<byte>, body: seq<byte>, mapping: seq<byte>, bodyLen: nat): seq<byte>
  {
    var wrapped := ch.wrap(nonce, mapping);
    var all := body + BigEndian(bodyLen, LENGTH) + wrapped + BigEndian(|wrapped|, LENGTH);
    all + ch.hash(all)
  }

  /** encrypt_in_place, with the dictionary and the padding it draws */
  function Encrypted(ch: Channel, nonce: seq<byte>, ad: seq<byte>, input: seq<byte>, mapping: seq<byte>, random: seq<byte>): seq<byte>
    requires |nonce| >= AES_GCM_NONCE_LENGTH_BYTES && IsDictionary(mapping)
  {
    var sealed := ch.seal(nonce[..AES_GCM_NONCE_LENGTH_BYTES], ad, Signed(ch, ad, input));
    Enclosed(ch, nonce, Shifted(mapping, sealed + random, false), mapping, |sealed|)
  }

  /** saturating_sub */
  function Cut(n: nat, k: nat): (r: nat)
    ensures r <= n <= r + k && (r > 0 ==> n == r + k)
  {
    if k <= n then n - k else 0
  }

  /** decode_length: the number in the last eight bytes, and what is before them. */
  function DecodeLength(s: seq<byte>): (r: Result<(nat, seq<byte>)>)
  {
    var at := Cut(|s|, LENGTH);
    if |s| - at != LENGTH || Value(s[at..]) > |s| then Err else Ok((Value(s[at..]), s[..at]))
  }

  /** The checksum and the wrapped dictionary taken off again. */
  function Disclosed(ch: Channel, s: seq<byte>): (r: Result<(seq<byte>, seq<byte>, nat)>)
    ensures r.Ok? ==> IsDictionary(r.value.1)
  {
    var end := Cut(|s|, DIGEST);
    if ch.hash(s[..end]) != s[end..] then Err else
    match DecodeLength(s[..end])
    case Err => Err
    case Ok((wrappedLen, t)) =>
      var at := Cut(|t|, wrappedLen);
      match ch.unwrap(t[at..])
      case None => Err
      case Some(dictionary) =>
        if |dictionary| < BLOCK then Err else
        match DecodeLength(t[..at])
        case Err => Err
        case Ok((bodyLen, body)) => Ok((body, dictionary[..BLOCK], bodyLen))
  }

  function Verified(ch: Channel, ad: seq<byte>, s: seq<byte>): Result<seq<byte>>
  {
    match DecodeLength(s)
    case Err => Err
    case Ok((signatureLen, t)) =>
      var at := Cut(|t|, signatureLen);
      if ch.verify(ch.hash(ad + t[..at]), t[at..]) then Ok(t[..at]) else Err
  }

  function Unsealed(ch: Channel, nonce: seq<byte>, ad: seq<byte>, s: seq<byte>): Result<seq<byte>>
    requires |nonce| >= AES_GCM_NONCE_LENGTH_BYTES
  {
    if |s| < TAG then Err else
    match ch.open(nonce[..AES_GCM_NONCE_LENGTH_BYTES], ad, s)
    case None => Err
    case Some(t) => Verified(ch, ad, t)
  }

  /** decrypt_in_place on a plain vector, whatever it holds */
  function Decrypted(ch: Channel, nonce: seq<byte>, ad: seq<byte>, input: seq<byte>): Result<seq<byte>>
    requires |nonce| >= AES_GCM_NONCE_LENGTH_BYTES
  {
    match Disclosed(ch, input)
    case Err => Err
    case Ok((body, mapping, bodyLen)) =>
      if |body| % BLOCK != 0 then Err
      else Unsealed(ch, nonce, ad, Truncated(Shifted(mapping, body, true), bodyLen))
  }

  datatype Outcome = Text(text: seq<byte>) | Failed | Panicked

  /**
   The decoded length reaches past the scrambled part: a plain vector ignores that, a window follows it.
   The cipher refuses a buffer shorter than its tag before it looks through the window.
   */
  predicate Overreaches(ch: Channel, input: seq<byte>)
  {
    match Disclosed(ch, input)
    case Err => false
    case Ok((body, mapping, bodyLen)) => |body| % BLOCK == 0 && |body| >= TAG && bodyLen > |body|
  }

  method EncryptInPlace(ch: Channel, nonce: seq<byte>, ad: seq<byte>, buf: InPlaceBuffer, mapping: seq<byte>, random: seq<byte>)
    requires buf.Valid() && |nonce| >= AES_GCM_NONCE_LENGTH_BYTES && IsDictionary(mapping)
    requires |random| == Padding(|ch.seal(nonce[..AES_GCM_NONCE_LENGTH_BYTES], ad, Signed(ch, ad, buf.inner))|)
    modifies buf
    ensures buf.Valid() && buf.inner == Encrypted(ch, nonce, ad, old(buf.inner), mapping, random)
  {
    var signature := ch.sign(ch.hash(ad + buf.inner));
    buf.ExtendFromSlice(signature);
    buf.ExtendFromSlice(BigEndian(|signature|, LENGTH));
    buf.Become(ch.seal(nonce[..AES_GCM_NONCE_LENGTH_BYTES], ad, buf.inner));
    var preScrambleLen := |buf.inner|;
    ScrambleInPlace(mapping, buf, random);
    buf.ExtendFromSlice(BigEndian(preScrambleLen, LENGTH));
    var wrapped := ch.wrap(nonce, mapping);
    buf.ExtendFromSlice(wrapped);
    buf.ExtendFromSlice(BigEndian(|wrapped|, LENGTH));
    buf.ExtendFromSlice(ch.hash(buf.inner));
  }

  method TakeLength(buf: InPlaceBuffer) returns (n: Result<nat>)
    requires buf.Valid()
    modifies buf
    ensures buf.Valid()
    ensures DecodeLength(old(buf.inner)).Err? ==> n.Err?
    ensures DecodeLength(old(buf.inner)).Ok? ==> n.Ok? && (n.value, buf.inner) == DecodeLength(old(buf.inner)).value
  {
    var at := Cut(|buf.inner|, LENGTH);
    var tail := buf.inner[at..];
    if |tail| != LENGTH || Value(tail) > |buf.inner| {
      return Err;
    }
    buf.Truncate(at);
    return Ok(Value(tail));
  }

  /** On any buffer; on an error the buffer is left as far as decryption got. */
  method DecryptInPlace(ch: Channel, nonce: seq<byte>, ad: seq<byte>, buf: InPlaceBuffer) returns (r: Outcome)
    requires buf.Valid() && |nonce| >= AES_GCM_NONCE_LENGTH_BYTES
    modifies buf
    ensures r == Panicked <==> Overreaches(ch, old(buf.inner))
    ensures r != Panicked ==> (r == Failed <==> Decrypted(ch, nonce, ad, old(buf.inner)).Err?)
    ensures r.Text? ==> buf.Valid() && buf.inner == r.text && Decrypted(ch, nonce, ad, old(buf.inner)) == Ok(r.text)
  {
    var end := Cut(|buf.inner|, DIGEST);
    if ch.hash(buf.inner[..end]) != buf.inner[end..] {
      return Failed;
    }
    TruncatedIs(buf.inner, end);
    buf.Truncate(end);
    var wrappedLen := TakeLength(buf);
    if wrappedLen.Err? {
      return Failed;
    }
    var at := Cut(|buf.inner|, wrappedLen.value);
    var dictionary := ch.unwrap(buf.inner[at..]);
    if dictionary.None? || |dictionary.value| < BLOCK {
      return Failed;
    }
    TruncatedIs(buf.inner, at);
    buf.Truncate(at);
    var preScrambleLen := TakeLength(buf);
    if preScrambleLen.Err? {
      return Failed;
    }
    var descrambled := DescrambleInPlace(dictionary.value[..BLOCK], buf);
    if !descrambled {
      return Failed;
    }
    buf.Truncate(preScrambleLen.value);
    if |buf.inner| < TAG {
      return Failed;
    }
    if buf.end > |buf.inner| {
      return Panicked;
    }
    r := OpenAndVerify(ch, nonce, ad, buf);
  }

  /** The part after descrambling: the cipher, then the signature. */
  method OpenAndVerify(ch: Channel, nonce: seq<byte>, ad: seq<byte>, buf: InPlaceBuffer) returns (r: Outcome)
    requires buf.Valid() && |nonce| >= AES_GCM_NONCE_LENGTH_BYTES && |buf.inner| >= TAG
    modifies buf
    ensures r != Panicked && (r == Failed <==> Unsealed(ch, nonce, ad, old(buf.inner)).Err?)
    ensures r.Text? ==> buf.Valid() && buf.inner == r.text && Unsealed(ch, nonce, ad, old(buf.inner)) == Ok(r.text)
  {
    var unsealed := ch.open(nonce[..AES_GCM_NONCE_LENGTH_BYTES], ad, buf.inner);
    if unsealed.None? {
      return Failed;
    }
    buf.Become(unsealed.value);
    var signatureLen := TakeLength(buf);
    if signatureLen.Err? {
      return Failed;
    }
    var split := Cut(|buf.inner|, signatureLen.value);
    if !ch.verify(ch.hash(ad + buf.inner[..split]), buf.inner[split..]) {
      return Failed;
    }
    TruncatedIs(buf.inner, split);
    buf.Truncate(split);
    return Text(buf.inner);
  }

  lemma TruncatedIs(s: seq<byte>, n: nat)
    requires n <= |s|
    ensures Truncated(s, n) == s[..n]
  {
  }

  lemma {:induction false} LengthDecodes(s: seq<byte>, n: nat)
    requires n <= |s| + LENGTH && n < TWO64
    ensures DecodeLength(s + BigEndian(n, LENGTH)) == Ok((n, s))
  {
    WordSizes();
    ValueOfBigEndian(n, LENGTH);
    var t := s + BigEndian(n, LENGTH);
    assert t[|s|..] == BigEndian(n, LENGTH) && t[..|s|] == s;
  }

  lemma SignedVerifies(ch: Channel, ad: seq<byte>, input: seq<byte>)
    requires Matched(ch) && |ch.sign(ch.hash(ad + input))| < TWO64
    ensures Verified(ch, ad, Signed(ch, ad, input)) == Ok(input)
  {
    var signature := ch.sign(ch.hash(ad + input));
    LengthDecodes(input + signature, |signature|);
    assert (input + signature)[..|input|] == input && (input + signature)[|input|..] == signature;
  }

  /** The decoder does not mind a length up to eight bytes longer than what is left. */
  lemma EnclosedDiscloses(ch: Channel, nonce: seq<byte>, body: seq<byte>, mapping: seq<byte>, bodyLen: nat)
    requires Matched(ch) && IsDictionary(mapping) && |ch.wrap(nonce, mapping)| < TWO64
    requires bodyLen <= |body| + LENGTH && bodyLen < TWO64
    ensures Disclosed(ch, Enclosed(ch, nonce, body, mapping, bodyLen)) == Ok((body, mapping, bodyLen))
  {
    var wrapped, inner := ch.wrap(nonce, mapping), body + BigEndian(bodyLen, LENGTH);
    var all := inner + wrapped + BigEndian(|wrapped|, LENGTH);
    var s := all + ch.hash(all);
    assert s[..|all|] == all && s[|all|..] == ch.hash(all);
    LengthDecodes(inner + wrapped, |wrapped|);
    assert (inner + wrapped)[..|inner|] == inner && (inner + wrapped)[|inner|..] == wrapped;
    LengthDecodes(body, bodyLen);
    assert mapping[..BLOCK] == mapping;
  }

  /** What encryption adds is measured in 64-bit lengths. */
  ghost predicate LengthsFit(ch: Channel, nonce: seq<byte>, ad: seq<byte>, input: seq<byte>, mapping: seq<byte>)
    requires |nonce| >= AES_GCM_NONCE_LENGTH_BYTES
  {
    && |ch.sign(ch.hash(ad + input))| < TWO64 && |ch.wrap(nonce, mapping)| < TWO64
    && |ch.seal(nonce[..AES_GCM_NONCE_LENGTH_BYTES], ad, Signed(ch, ad, input))| < TWO64
  }

  /** For every input, header, nonce, dictionary and padding the receiver gets the input back, in a window too. */
  lemma DecryptsToInput(ch: Channel, nonce: seq<byte>, ad: seq<byte>, input: seq<byte>, mapping: seq<byte>, random: seq<byte>)
    requires Matched(ch) && |nonce| >= AES_GCM_NONCE_LENGTH_BYTES && IsDictionary(mapping)
    requires LengthsFit(ch, nonce, ad, input, mapping)
    requires |random| == Padding(|ch.seal(nonce[..AES_GCM_NONCE_LENGTH_BYTES], ad, Signed(ch, ad, input))|)
    ensures Decrypted(ch, nonce, ad, Encrypted(ch, nonce, ad, input, mapping, random)) == Ok(input)
    ensures !Overreaches(ch, Encrypted(ch, nonce, ad, input, mapping, random))
  {
    var sealed := ch.seal(nonce[..AES_GCM_NONCE_LENGTH_BYTES], ad, Signed(ch, ad, input));
    DescramblesToInput(mapping, sealed, random);
    EnclosedDiscloses(ch, nonce, Shifted(mapping, sealed + random, false), mapping, |sealed|);
    SignedVerifies(ch, ad, input);
    assert Truncated(Shifted(mapping, Shifted(mapping, sealed + random, false), true), |sealed|) == sealed;
  }

  /** One block with a length of 33 is such a buffer. */
  lemma OverreachingBuffer(ch: Channel, nonce: seq<byte>, mapping: seq<byte>)
    requires Matched(ch) && IsDictionary(mapping) && |ch.wrap(nonce, mapping)| < TWO64
    ensures Overreaches(ch, Enclosed(ch, nonce, seq(BLOCK, _ => 0), mapping, BLOCK + 1))
  {
    EnclosedDiscloses(ch, nonce, seq(BLOCK, _ => 0), mapping, BLOCK + 1);
  }

  /**
   What comes out of any buffer was sealed together with a signature, and that signature verifies for
   header and text; the checksum over all of it was right.
   */
  lemma AcceptedIsSigned(ch: Channel, nonce: seq<byte>, ad: seq<byte>, input: seq<byte>)
    returns (signature: seq<byte>, field: seq<byte>)
    requires |nonce| >= AES_GCM_NONCE_LENGTH_BYTES && Decrypted(ch, nonce, ad, input).Ok?
    ensures var end := Cut(|input|, DIGEST); input[end..] == ch.hash(input[..end])
    ensures Disclosed(ch, input).Ok? && |field| == LENGTH
    ensures var (body, mapping, bodyLen) := Disclosed(ch, input).value;
            var text := Decrypted(ch, nonce, ad, input).value;
            && ch.open(nonce[..AES_GCM_NONCE_LENGTH_BYTES], ad, Truncated(Shifted(mapping, body, true), bodyLen))
               == Some(text + signature + field)
            && ch.verify(ch.hash(ad + text), signature)
  {
    var (body, mapping, bodyLen) := Disclosed(ch, input).value;
    var s := ch.open(nonce[..AES_GCM_NONCE_LENGTH_BYTES], ad, Truncated(Shifted(mapping, body, true), bodyLen)).value;
    var (signatureLen, t) := DecodeLength(s).value;
    var at := Cut(|t|, signatureLen);
    signature, field := t[at..], s[|t|..];
    assert s == t[..at] + signature + field;
  }
}
