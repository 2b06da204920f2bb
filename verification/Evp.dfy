/** The cipher context behind clib/streamer.cpp, as the library documents it: input may arrive in
    pieces of any length. */
module Evp {
  import opened Encoding
  import opened Words
  import opened Gcm

  /** The longest message the mode admits, in bytes (section 5.2.1.1 of NIST SP 800-38D). */
  const MESSAGE_LIMIT: nat := 0xF_FFFF_FFE0

  datatype Phase = Idle | Running | Finished

  /** EVP_CIPHER_CTX in GCM mode. It keeps the unused part of the last key stream block and the
      part of the last ciphertext block that has not been hashed yet, so that input may arrive
      in pieces of any length. */
  class CipherContext {
    var phase: Phase
    var encrypting: bool
    var setup: Setup
    var counter: Block   // the next counter block
    var stream: Block    // the current block of the key stream
    var hash: Block      // the hash of the whole ciphertext blocks so far
    var pending: Bytes   // the ciphertext bytes after them
    var total: nat
    ghost var input: Bytes  // all input since the context was set up

    ghost function Ciphertext(): Bytes
      reads this
    {
      if encrypting then Cipher(setup, input) else input
    }

    ghost predicate Valid()
      reads this
    {
      && total == |input|
      && StreamAt(setup.next, setup.cipher, setup.dataCounter, counter, stream, total)
      && HashAt(setup.times, Ciphertext(), hash, pending)
    }

    twostate predicate SameSetup()
      reads this
    {
      encrypting == old(encrypting) && setup == old(setup)
    }

    constructor ()
      ensures Valid() && phase == Idle
    {
      var nothing: OnBlocks := b => b;
      phase, encrypting, setup := Idle, true, Setup(nothing, nothing, nothing, Zeros(16), Zeros(16));
      counter, stream, hash, pending, total := Zeros(16), Zeros(16), Zeros(16), [], 0;
      input := [];
    }

    /** EVP_EncryptInit_ex or EVP_DecryptInit_ex with key and nonce: everything before is
        forgotten. */
    method Init(encrypting: bool, setup: Setup)
      modifies this
      ensures Valid() && phase == Running && input == []
      ensures this.encrypting == encrypting && this.setup == setup
    {
      this.phase, this.encrypting, this.setup := Running, encrypting, setup;
      counter := setup.dataCounter;
      hash, pending, total := Zeros(16), [], 0;
      input := [];
    }

    /** The key stream byte for the next position. */
    method NextKeyByte() returns (k: byte)
      requires StreamAt(setup.next, setup.cipher, setup.dataCounter, counter, stream, total)
      modifies this`stream, this`counter
      ensures k == KeyByte(setup.next, setup.cipher, setup.dataCounter, total)
      ensures StreamAt(setup.next, setup.cipher, setup.dataCounter, counter, stream, total + 1)
    {
      StreamStep(setup.next, setup.cipher, setup.dataCounter, counter, stream, total);
      if total % 16 == 0 {
        stream := setup.cipher(counter);
        counter := setup.next(counter);
      }
      k := stream[total % 16];
    }

    /** Hashes a byte of ciphertext. */
    method HashByte(c: byte, ghost ciphertext: Bytes)
      requires HashAt(setup.times, ciphertext, hash, pending)
      modifies this`hash, this`pending
      ensures HashAt(setup.times, ciphertext + [c], hash, pending)
    {
      HashStep(setup.times, ciphertext, hash, pending, c);
      pending := pending + [c];
      if |pending| == 16 {
        hash := setup.times(XorBytes(hash, pending));
        pending := [];
      }
    }

    /** One byte of input. */
    method Absorb(b: byte) returns (out: byte)
      requires Valid()
      modifies this
      ensures Valid() && SameSetup() && phase == old(phase)
      ensures input == old(input) + [b]
      ensures Cipher(setup, input) == Cipher(setup, old(input)) + [out]
    {
      ghost var ciphertext := Ciphertext();
      GctrSnoc(setup.next, setup.cipher, setup.dataCounter, input, b);
      var k := NextKeyByte();
      out := Xor(b, k);
      HashByte(if encrypting then out else b, ciphertext);
      input := input + [b];
      total := total + 1;
    }

    /** EVP_EncryptUpdate or EVP_DecryptUpdate: refused outside of a message, and when the
        message would become longer than the mode admits. */
    method Update(chunk: Bytes) returns (out: Bytes, ok: bool)
      requires Valid()
      modifies this
      ensures Valid() && SameSetup() && phase == old(phase)
      ensures ok <==> old(phase) == Running && |old(input)| + |chunk| <= MESSAGE_LIMIT
      ensures input == if ok then old(input) + chunk else old(input)
      ensures ok ==> Cipher(setup, input) == Cipher(setup, old(input)) + out
    {
      out := [];
      ok := phase == Running && total + |chunk| <= MESSAGE_LIMIT;
      if ok {
        for i := 0 to |chunk|
          invariant Valid() && SameSetup() && phase == old(phase)
          invariant input == old(input) + chunk[..i]
          invariant Cipher(setup, input) == Cipher(setup, old(input)) + out
        {
          var b := Absorb(chunk[i]);
          TakeSnoc(old(input), chunk, i);
          out := out + [b];
        }
        assert chunk[..|chunk|] == chunk;
      }
    }

    /** The tag of what has been absorbed. */
    method ComputeTag() returns (tag: Bytes)
      requires Valid()
      ensures tag == Tag(setup, Ciphertext())
    {
      var end := hash;
      if |pending| > 0 {
        var block := pending + Zeros(16 - |pending|);
        HashEnd(setup.times, Ciphertext(), hash, pending, block);
        end := setup.times(XorBytes(hash, block));
      } else {
        HashEndWhole(setup.times, Ciphertext(), hash);
      }
      tag := TagFrom(setup, setup.times(XorBytes(end, LengthBlock(total))));
    }

    /** EVP_EncryptFinal_ex followed by EVP_CTRL_GCM_GET_TAG: no further output, and the message
        cannot be continued. */
    method Finish() returns (tag: Bytes, ok: bool)
      requires Valid()
      modifies this`phase
      ensures Valid() && phase == if old(phase) == Running then Finished else old(phase)
      ensures ok <==> old(phase) == Running
      ensures ok ==> tag == Tag(setup, Ciphertext())
    {
      ok := phase == Running;
      tag := [];
      if ok {
        tag := ComputeTag();
        phase := Finished;
      }
    }
  }

  lemma TakeSnoc(start: Bytes, chunk: Bytes, i: nat)
    requires i < |chunk|
    ensures (start + chunk[..i]) + [chunk[i]] == start + chunk[..i + 1]
  {
  }

  // ---------- what the context keeps ----------

  /** The counter is ahead of the key stream bytes used, and a block in use is at hand. */
  ghost predicate StreamAt(next: OnBlocks, cipher: OnBlocks, icb: Block, counter: Block, stream: Block, used: nat) {
    && counter == Counter(next, icb, (used + 15) / 16)
    && (used % 16 != 0 ==> stream == cipher(Counter(next, icb, used / 16)))
  }

  lemma StreamStep(next: OnBlocks, cipher: OnBlocks, icb: Block, counter: Block, stream: Block, used: nat)
    requires StreamAt(next, cipher, icb, counter, stream, used)
    ensures var current := if used % 16 == 0 then cipher(counter) else stream;
            var ahead := if used % 16 == 0 then next(counter) else counter;
            && current[used % 16] == KeyByte(next, cipher, icb, used)
            && StreamAt(next, cipher, icb, ahead, current, used + 1)
  {
    var n := used / 16;
    if used % 16 == 0 {
      assert (used + 15) / 16 == n && (used + 1) / 16 == n && (used + 1 + 15) / 16 == n + 1;
      CounterSnoc(next, icb, n);
    } else {
      assert (used + 15) / 16 == n + 1 == (used + 1 + 15) / 16;
      assert (used + 1) % 16 != 0 ==> (used + 1) / 16 == n;
    }
  }

  /** The whole blocks of the ciphertext are hashed; the rest is pending. */
  ghost predicate HashAt(times: OnBlocks, ciphertext: Bytes, hash: Block, pending: Bytes) {
    var whole := |ciphertext| / 16 * 16;
    && pending == ciphertext[whole..]
    && hash == Ghash(times, Zeros(16), ciphertext[..whole])
  }

  /** One more byte of ciphertext, hashed when it completes a block. */
  lemma HashStep(times: OnBlocks, ciphertext: Bytes, hash: Block, pending: Bytes, b: byte)
    requires HashAt(times, ciphertext, hash, pending)
    ensures |pending| == |ciphertext| % 16
    ensures if |pending| == 15
            then HashAt(times, ciphertext + [b], times(XorBytes(hash, pending + [b])), [])
            else HashAt(times, ciphertext + [b], hash, pending + [b])
  {
    var whole := |ciphertext| / 16 * 16;
    var longer := ciphertext + [b];
    if |pending| == 15 {
      assert |longer| / 16 * 16 == |longer|;
      assert longer == ciphertext[..whole] + (pending + [b]);
      GhashConcat(times, Zeros(16), ciphertext[..whole], pending + [b]);
      GhashBlock(times, hash, pending + [b]);
      assert longer[..|longer|] == longer && longer[|longer|..] == [];
    } else {
      assert |longer| / 16 * 16 == whole;
      assert longer[..whole] == ciphertext[..whole];
    }
  }

  /** Padding the pending bytes finishes the hash. */
  lemma HashEnd(times: OnBlocks, ciphertext: Bytes, hash: Block, pending: Bytes, block: Block)
    requires HashAt(times, ciphertext, hash, pending) && pending != []
    requires block == pending + Zeros(16 - |pending|)
    ensures Ghash(times, Zeros(16), Padded(ciphertext)) == times(XorBytes(hash, block))
  {
    var whole := |ciphertext| / 16 * 16;
    assert Padded(ciphertext) == ciphertext[..whole] + block;
    GhashConcat(times, Zeros(16), ciphertext[..whole], block);
    GhashBlock(times, hash, block);
  }

  lemma HashEndWhole(times: OnBlocks, ciphertext: Bytes, hash: Block)
    requires HashAt(times, ciphertext, hash, [])
    ensures Ghash(times, Zeros(16), Padded(ciphertext)) == hash
  {
    assert ciphertext[|ciphertext| / 16 * 16..] == [];
    assert Padded(ciphertext) == ciphertext == ciphertext[..|ciphertext| / 16 * 16];
  }
}
