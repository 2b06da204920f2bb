/** Authenticated encryption in Galois/Counter Mode with a 96-bit nonce and no associated data,
    as NIST SP 800-38D defines it. The block cipher and the multiplication of the hash are
    parameters: nothing below relies on what they compute. */
module Gcm {
  import opened Wrappers
  import opened Encoding
  import opened Words

  type Block = b: Bytes | |b| == 16 witness seq(16, i => 0)

  type OnBlocks = Block -> Block

  /** The block cipher under a key, and the multiplication by a hash key. */
  datatype Primitives = Primitives(encipher: Bytes -> OnBlocks, multiplyBy: Block -> OnBlocks)

  function Zeros(n: nat): (z: Bytes)
    ensures |z| == n
  {
    seq(n, i => 0)
  }

  // ---------- counter mode, over any increment and any keyed cipher ----------

  /** The counter block that follows another n steps later. */
  function Counter(next: OnBlocks, b: Block, n: nat): Block
    decreases n
  {
    if n == 0 then b else Counter(next, next(b), n - 1)
  }

  /** GCTR, section 6.5: whole blocks first, then what is left of the last one. */
  function Gctr(next: OnBlocks, cipher: OnBlocks, icb: Block, x: Bytes): (y: Bytes)
    ensures |y| == |x|
    decreases |x|
  {
    if |x| <= 16 then XorBytes(x, cipher(icb))
    else XorBytes(x[..16], cipher(icb)) + Gctr(next, cipher, next(icb), x[16..])
  }

  /** The i-th byte of the key stream. */
  function KeyByte(next: OnBlocks, cipher: OnBlocks, icb: Block, i: nat): byte {
    cipher(Counter(next, icb, i / 16))[i % 16]
  }

  lemma {:induction false} CounterSnoc(next: OnBlocks, b: Block, n: nat)
    ensures Counter(next, b, n + 1) == next(Counter(next, b, n))
    decreases n
  {
    if n > 0 {
      CounterSnoc(next, next(b), n - 1);
    }
  }

  lemma KeyByteShift(next: OnBlocks, cipher: OnBlocks, icb: Block, i: nat)
    requires i >= 16
    ensures KeyByte(next, cipher, icb, i) == KeyByte(next, cipher, next(icb), i - 16)
  {
    assert i / 16 == (i - 16) / 16 + 1 && i % 16 == (i - 16) % 16;
  }

  /** Counter mode byte by byte. */
  lemma {:induction false} GctrAt(next: OnBlocks, cipher: OnBlocks, icb: Block, x: Bytes, i: nat)
    requires i < |x|
    ensures Gctr(next, cipher, icb, x)[i] == Xor(x[i], KeyByte(next, cipher, icb, i))
    decreases |x|
  {
    if |x| > 16 && i >= 16 {
      KeyByteShift(next, cipher, icb, i);
      GctrAt(next, cipher, next(icb), x[16..], i - 16);
    }
  }

  /** A longer message does not change what came before. */
  lemma GctrPrefix(next: OnBlocks, cipher: OnBlocks, icb: Block, x: Bytes, longer: Bytes)
    requires x <= longer
    ensures Gctr(next, cipher, icb, longer)[..|x|] == Gctr(next, cipher, icb, x)
  {
    forall i | 0 <= i < |x|
      ensures Gctr(next, cipher, icb, longer)[i] == Gctr(next, cipher, icb, x)[i]
    {
      GctrAt(next, cipher, icb, longer, i);
      GctrAt(next, cipher, icb, x, i);
    }
  }

  lemma GctrSnoc(next: OnBlocks, cipher: OnBlocks, icb: Block, x: Bytes, b: byte)
    ensures Gctr(next, cipher, icb, x + [b])
         == Gctr(next, cipher, icb, x) + [Xor(b, KeyByte(next, cipher, icb, |x|))]
  {
    GctrPrefix(next, cipher, icb, x, x + [b]);
    GctrAt(next, cipher, icb, x + [b], |x|);
    var whole := Gctr(next, cipher, icb, x + [b]);
    assert whole == whole[..|x|] + [whole[|x|]];
  }

  /** Counter mode undoes itself. */
  lemma GctrTwice(next: OnBlocks, cipher: OnBlocks, icb: Block, x: Bytes)
    ensures Gctr(next, cipher, icb, Gctr(next, cipher, icb, x)) == x
  {
    var y := Gctr(next, cipher, icb, x);
    forall i | 0 <= i < |x|
      ensures Gctr(next, cipher, icb, y)[i] == x[i]
    {
      GctrAt(next, cipher, icb, x, i);
      GctrAt(next, cipher, icb, y, i);
      XorTwice(x[i], KeyByte(next, cipher, icb, i));
    }
  }

  // ---------- the hash ----------

  /** GHASH, section 6.4, continued from an intermediate value; times is the multiplication by
      the hash key. */
  function Ghash(times: OnBlocks, y: Block, x: Bytes): Block
    requires |x| % 16 == 0
    decreases |x|
  {
    if x == [] then y
    else Ghash(times, times(XorBytes(y, x[..16])), x[16..])
  }

  lemma {:induction false} GhashConcat(times: OnBlocks, y: Block, a: Bytes, b: Bytes)
    requires |a| % 16 == 0 && |b| % 16 == 0
    ensures Ghash(times, y, a + b) == Ghash(times, Ghash(times, y, a), b)
    decreases |a|
  {
    if a == [] {
      assert a + b == b;
    } else {
      assert (a + b)[..16] == a[..16] && (a + b)[16..] == a[16..] + b;
      GhashConcat(times, times(XorBytes(y, a[..16])), a[16..], b);
    }
  }

  lemma GhashBlock(times: OnBlocks, y: Block, block: Block)
    ensures Ghash(times, y, block) == times(XorBytes(y, block))
  {
    assert block[..16] == block && block[16..] == [];
  }

  /** Zero bytes up to a multiple of the block length. */
  function Padding(n: nat): (z: Bytes)
    ensures (n + |z|) % 16 == 0 && |z| < 16
  {
    Zeros((16 - n % 16) % 16)
  }

  function Padded(x: Bytes): (r: Bytes)
    ensures |r| % 16 == 0
  {
    x + Padding(|x|)
  }

  /** The bit lengths of the (empty) associated data and of the ciphertext, as 64-bit words. */
  function LengthBlock(n: nat): Block {
    BigEndian(0, 8) + BigEndian(8 * n, 8)
  }

  // ---------- encryption and decryption ----------

  const COUNTER_BYTES: nat := 4

  /** inc32, section 6.2: the last four bytes count modulo 2^32. */
  function Inc32(b: Block): Block {
    b[..12] + BigEndian(Value(b[12..]) + 1, COUNTER_BYTES)
  }

  predicate NonceSized(nonce: Bytes) {
    |nonce| == 12
  }

  /** J0, section 7.1, step 2, for a 96-bit nonce. */
  function FirstCounter(nonce: Bytes): Block
    requires NonceSized(nonce)
  {
    nonce + BigEndian(1, COUNTER_BYTES)
  }

  /** The multiplication by the hash key, which is the encryption of the zero block. */
  function TimesHashKey(p: Primitives, key: Bytes): OnBlocks {
    p.multiplyBy(p.encipher(key)(Zeros(16)))
  }

  /** The hash of a ciphertext: padded, and followed by its length. */
  function HashOf(times: OnBlocks, ciphertext: Bytes): Block {
    times(XorBytes(Ghash(times, Zeros(16), Padded(ciphertext)), LengthBlock(|ciphertext|)))
  }

  /** What key and nonce amount to: the expanded key, the hash key, the counter increment, the
      counter block of the tag and that of the first data block (section 7.1, steps 1 to 3). */
  datatype Setup = Setup(
    cipher: OnBlocks,
    times: OnBlocks,
    next: OnBlocks,
    tagCounter: Block,
    dataCounter: Block)

  function SetupOf(p: Primitives, key: Bytes, nonce: Bytes): Setup
    requires NonceSized(nonce)
  {
    Setup(p.encipher(key), TimesHashKey(p, key), Inc32, FirstCounter(nonce), Inc32(FirstCounter(nonce)))
  }

  function Cipher(s: Setup, text: Bytes): (r: Bytes)
    ensures |r| == |text|
  {
    Gctr(s.next, s.cipher, s.dataCounter, text)
  }

  function TagFrom(s: Setup, hash: Block): (tag: Bytes)
    ensures |tag| == 16
  {
    XorBytes(hash, s.cipher(s.tagCounter))
  }

  function Tag(s: Setup, ciphertext: Bytes): (tag: Bytes)
    ensures |tag| == 16
  {
    TagFrom(s, HashOf(s.times, ciphertext))
  }

  /** Section 7.1: the ciphertext followed by its tag. */
  function Seal(s: Setup, plaintext: Bytes): Bytes {
    var ciphertext := Cipher(s, plaintext);
    ciphertext + Tag(s, ciphertext)
  }

  /** Section 7.2: nothing is released unless the tag is right. */
  function Open(s: Setup, sealed: Bytes): Option<Bytes> {
    if |sealed| < 16 then None
    else
      var ciphertext, tag := sealed[..|sealed| - 16], sealed[|sealed| - 16..];
      if tag == Tag(s, ciphertext) then Some(Cipher(s, ciphertext)) else None
  }

  /** The hash of section 7.1 in one piece: GHASH over the padded ciphertext and the lengths. */
  lemma HashOfIsGhash(times: OnBlocks, ciphertext: Bytes, input: Bytes)
    requires input == Padded(ciphertext) + LengthBlock(|ciphertext|)
    ensures |input| % 16 == 0
    ensures HashOf(times, ciphertext) == Ghash(times, Zeros(16), input)
  {
    HashInPieces(times, Padded(ciphertext), LengthBlock(|ciphertext|));
  }

  lemma HashInPieces(times: OnBlocks, padded: Bytes, lengths: Block)
    requires |padded| % 16 == 0
    ensures |padded + lengths| % 16 == 0
    ensures Ghash(times, Zeros(16), padded + lengths)
         == times(XorBytes(Ghash(times, Zeros(16), padded), lengths))
  {
    GhashConcat(times, Zeros(16), padded, lengths);
    GhashBlock(times, Ghash(times, Zeros(16), padded), lengths);
  }

  /** Decryption accepts a text exactly when it is the encryption of what decryption returns. */
  lemma OpenExactly(s: Setup, sealed: Bytes, plaintext: Bytes)
    ensures Open(s, sealed) == Some(plaintext) <==> sealed == Seal(s, plaintext)
  {
    if sealed == Seal(s, plaintext) {
      var ciphertext := Cipher(s, plaintext);
      assert sealed[..|sealed| - 16] == ciphertext;
      assert sealed[|sealed| - 16..] == Tag(s, ciphertext);
      GctrTwice(s.next, s.cipher, s.dataCounter, plaintext);
    }
    if Open(s, sealed) == Some(plaintext) {
      GctrTwice(s.next, s.cipher, s.dataCounter, sealed[..|sealed| - 16]);
      assert sealed == sealed[..|sealed| - 16] + sealed[|sealed| - 16..];
    }
  }

  // ---------- the whole of it, spelled out ----------

  /** The nonce followed by a 32-bit number. */
  function CounterBlock(nonce: Bytes, v: nat): Block
    requires NonceSized(nonce)
  {
    nonce + BigEndian(v, COUNTER_BYTES)
  }

  lemma Inc32Parts(nonce: Bytes, word: Bytes)
    requires NonceSized(nonce) && |word| == 4
    ensures Inc32(nonce + word) == nonce + BigEndian(Value(word) + 1, COUNTER_BYTES)
  {
    assert (nonce + word)[..12] == nonce && (nonce + word)[12..] == word;
  }

  /** Counting up is counting up modulo 2^32 in the last four bytes. */
  lemma Inc32Is(nonce: Bytes, v: nat)
    requires NonceSized(nonce)
    ensures Inc32(CounterBlock(nonce, v)) == CounterBlock(nonce, v + 1)
  {
    Inc32Parts(nonce, BigEndian(v, COUNTER_BYTES));
    NextCounter(v);
  }

  lemma NextCounter(v: nat)
    ensures BigEndian(Value(BigEndian(v, COUNTER_BYTES)) + 1, COUNTER_BYTES) == BigEndian(v + 1, COUNTER_BYTES)
  {
    Pow256Four();
    NextWord(v % TWO_32, v / TWO_32, COUNTER_BYTES);
  }

  lemma {:induction false} CountsUp(next: OnBlocks, blocks: nat -> Block, b: Block, i: nat)
    requires b == blocks(2) && forall v: nat :: next(blocks(v)) == blocks(v + 1)
    ensures Counter(next, b, i) == blocks(2 + i)
  {
    if i > 0 {
      CountsUp(next, blocks, b, i - 1);
      CounterSnoc(next, b, i - 1);
    }
  }

  /** The i-th counter block of the data is the nonce followed by 2 + i. */
  lemma CounterIs(nonce: Bytes, i: nat)
    requires NonceSized(nonce)
    ensures Counter(Inc32, Inc32(FirstCounter(nonce)), i) == CounterBlock(nonce, 2 + i)
  {
    var blocks: nat -> Block := v => CounterBlock(nonce, v);
    forall v: nat
      ensures Inc32(blocks(v)) == blocks(v + 1)
    {
      Inc32Is(nonce, v);
    }
    FirstIs(nonce);
    CountsUp(Inc32, blocks, Inc32(FirstCounter(nonce)), i);
  }

  lemma FirstIs(nonce: Bytes)
    requires NonceSized(nonce)
    ensures FirstCounter(nonce) == CounterBlock(nonce, 1) && Inc32(FirstCounter(nonce)) == CounterBlock(nonce, 2)
  {
    Inc32Is(nonce, 1);
  }

  /** So no two blocks of a message that the mode admits share a counter block, and none shares that
      of the tag, whose number is 1. */
  lemma BlocksDistinct(nonce: Bytes, v: nat, w: nat)
    requires NonceSized(nonce) && v < TWO_32 && w < TWO_32 && v != w
    ensures CounterBlock(nonce, v) != CounterBlock(nonce, w)
  {
    BigEndianDistinct(v, w);
    assert CounterBlock(nonce, v)[12..] == BigEndian(v, COUNTER_BYTES);
    assert CounterBlock(nonce, w)[12..] == BigEndian(w, COUNTER_BYTES);
  }

  lemma KeyByteIs(cipher: OnBlocks, nonce: Bytes, i: nat)
    requires NonceSized(nonce)
    ensures KeyByte(Inc32, cipher, Inc32(FirstCounter(nonce)), i) == cipher(CounterBlock(nonce, 2 + i / 16))[i % 16]
  {
    CounterIs(nonce, i / 16);
  }

  /** Section 7.1 for a 96-bit nonce: every byte of the ciphertext in terms of key, nonce and
      position. */
  lemma CiphertextIs(p: Primitives, key: Bytes, nonce: Bytes, plaintext: Bytes, i: nat)
    requires NonceSized(nonce) && i < |plaintext|
    ensures |Seal(SetupOf(p, key, nonce), plaintext)| == |plaintext| + 16
    ensures Seal(SetupOf(p, key, nonce), plaintext)[i]
         == Xor(plaintext[i], p.encipher(key)(CounterBlock(nonce, 2 + i / 16))[i % 16])
  {
    var s := SetupOf(p, key, nonce);
    GctrAt(s.next, s.cipher, s.dataCounter, plaintext, i);
    KeyByteIs(s.cipher, nonce, i);
    assert Seal(s, plaintext)[i] == Cipher(s, plaintext)[i];
  }

  /** And the tag: GHASH, under the encrypted zero block, of the padded ciphertext and its length in
      bits, added to the encryption of the first counter block. */
  lemma TagIs(p: Primitives, key: Bytes, nonce: Bytes, plaintext: Bytes, input: Bytes)
    requires NonceSized(nonce)
    requires var ciphertext := Seal(SetupOf(p, key, nonce), plaintext)[..|plaintext|];
             var lengths := BigEndian(0, 8) + BigEndian(8 * |plaintext|, 8);
             input == ciphertext + Zeros((16 - |plaintext| % 16) % 16) + lengths
    ensures |input| % 16 == 0
    ensures Seal(SetupOf(p, key, nonce), plaintext)[|plaintext|..]
         == XorBytes(Ghash(p.multiplyBy(p.encipher(key)(Zeros(16))), Zeros(16), input),
                     p.encipher(key)(nonce + BigEndian(1, 4)))
  {
    var s := SetupOf(p, key, nonce);
    var ciphertext := Cipher(s, plaintext);
    assert Seal(s, plaintext)[..|plaintext|] == ciphertext;
    HashOfIsGhash(s.times, ciphertext, input);
    assert Seal(s, plaintext)[|plaintext|..] == Tag(s, ciphertext);
  }
}
