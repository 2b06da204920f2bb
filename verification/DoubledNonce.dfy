/** A frame with its nonce in front a second time, as unpacking makes it
    (internal/extractor/transport.go:167-175). */
module DoubledNonce {
  import opened Wrappers
  import opened Encoding
  import opened Words
  import opened Gcm
  import opened Streamer

  /** A frame with its nonce in front a second time. What is decrypted then is the nonce followed
      by the ciphertext, so nothing is released unless that has the tag of the ciphertext alone. */
  lemma SecondNonce(codec: Codec, p: Primitives, key: Bytes, nonce: Bytes, src: Bytes)
    requires |key| == KEY_SIZE && |nonce| == NONCE_SIZE && Compressible(codec, src)
    ensures Frame(codec, p, key, nonce, src).Success?
    ensures var setup := SetupOf(p, key, nonce);
            var ciphertext := Cipher(setup, Compressed(codec, src).value);
            Unframe(codec, p, key, nonce + Frame(codec, p, key, nonce, src).value) ==
              if Tag(setup, nonce + ciphertext) == Tag(setup, ciphertext)
              then Decompressed(codec, Cipher(setup, nonce + ciphertext))
              else Failure(TagMismatch)
  {
    FrameIs(codec, p, key, nonce, src);
    var setup := SetupOf(p, key, nonce);
    var ciphertext := Cipher(setup, Compressed(codec, src).value);
    var tag := Tag(setup, ciphertext);
    var doubled := nonce + (nonce + (ciphertext + tag));
    assert doubled[..NONCE_SIZE] == nonce && doubled[NONCE_SIZE..] == (nonce + ciphertext) + tag;
    OpenedIs(p, key, nonce, nonce + ciphertext, tag, (nonce + ciphertext) + tag);
  }

  // ---------- an instance in which the second nonce is refused ----------

  /** The cheapest primitives: a cipher without effect and a multiplication by one. */
  const PLAINEST := Primitives(key => b => Zeros(16), h => b => b)

  const EMPTY_ONLY := Codec(x => if x == [] then Some([0]) else None,
                           (c, n) => if c == [0] && n == 0 then Some([]) else None)

  lemma PlainestCipher(key: Bytes, nonce: Bytes, n: nat)
    requires NonceSized(nonce) && n <= 32
    ensures Cipher(SetupOf(PLAINEST, key, nonce), Zeros(n)) == Zeros(n)
  {
    var s := SetupOf(PLAINEST, key, nonce);
    forall i | 0 <= i < n
      ensures Cipher(s, Zeros(n))[i] == 0
    {
      GctrAt(s.next, s.cipher, s.dataCounter, Zeros(n), i);
      XorZero(0);
    }
  }

  /** The tag of a text of zeros ends with its length in bits. */
  lemma PlainestTag(key: Bytes, nonce: Bytes, n: nat)
    requires NonceSized(nonce) && 0 < n < 32
    ensures Tag(SetupOf(PLAINEST, key, nonce), Zeros(n))[15] == 8 * n
  {
    var s := SetupOf(PLAINEST, key, nonce);
    PlainestHashOf(s.times, n);
    XorZero(8 * n);
  }

  lemma PlainestHashOf(times: OnBlocks, n: nat)
    requires 0 < n < 32 && forall b :: times(b) == b
    ensures HashOf(times, Zeros(n))[15] == 8 * n
  {
    var padded := Padded(Zeros(n));
    assert padded == Zeros(|padded|);
    PlainestHash(times, |padded|);
    LastOfLength(n);
    XorZero(8 * n);
  }

  lemma LastOfLength(n: nat)
    requires n < 32
    ensures LengthBlock(n)[15] == 8 * n
  {
    assert LengthBlock(n)[15] == BigEndian(8 * n, 8)[7];
  }

  lemma {:induction false} PlainestHash(times: OnBlocks, n: nat)
    requires n % 16 == 0 && forall b :: times(b) == b
    ensures Ghash(times, Zeros(16), Zeros(n)) == Zeros(16)
  {
    if n > 0 {
      XorZero(0);
      assert XorBytes(Zeros(16), Zeros(n)[..16]) == Zeros(16);
      assert Zeros(n)[16..] == Zeros(n - 16);
      PlainestHash(times, n - 16);
    }
  }

  lemma PlainestCompressed()
    ensures Lawful(EMPTY_ONLY) && Compressible(EMPTY_ONLY, [])
    ensures Compressed(EMPTY_ONLY, []) == Success(Zeros(5))
  {
    FourBytes(0);
    assert BigEndian(0, 4) + [0] == Zeros(5);
  }

  lemma TagsDiffer(key: Bytes, nonce: Bytes)
    requires nonce == Zeros(12)
    ensures var setup := SetupOf(PLAINEST, key, nonce);
            var ciphertext := Cipher(setup, Zeros(5));
            Tag(setup, nonce + ciphertext) != Tag(setup, ciphertext)
  {
    PlainestCipher(key, nonce, 5);
    assert nonce + Zeros(5) == Zeros(17);
    PlainestTag(key, nonce, 5);
    PlainestTag(key, nonce, 17);
  }

  /** The first nonce alone is accepted, a second one in front of it is not. */
  lemma SecondNonceRefused(key: Bytes, nonce: Bytes)
    requires |key| == KEY_SIZE && nonce == Zeros(12)
    ensures Lawful(EMPTY_ONLY)
    ensures var frame := Frame(EMPTY_ONLY, PLAINEST, key, nonce, []);
            && frame.Success?
            && Unframe(EMPTY_ONLY, PLAINEST, key, frame.value) == Success([])
            && Unframe(EMPTY_ONLY, PLAINEST, key, nonce + frame.value) == Failure(TagMismatch)
  {
    PlainestCompressed();
    FrameReturns(EMPTY_ONLY, PLAINEST, key, nonce, []);
    SecondNonce(EMPTY_ONLY, PLAINEST, key, nonce, []);
    TagsDiffer(key, nonce);
  }
}
