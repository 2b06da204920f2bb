/** Compression, encryption and their frame (clib/streamer.cpp:20-285, clib/streamer.hpp:74-123).
    LZ4, the block cipher and the multiplication of GHASH are parameters. */
module Streamer {
  import opened Wrappers
  import opened Encoding
  import opened Words
  import opened Gcm
  import opened Evp

  const KEY_SIZE: nat := 32
  const NONCE_SIZE: nat := 12
  const TAG_SIZE: nat := 16
  const MAX_DATA_SIZE: nat := 0x1000_0000      // 256 MiB
  const LZ4_MAX_INPUT_SIZE: nat := 0x7E00_0000
  const INT_MAX: nat := 0x7FFF_FFFF            // length arguments of the libraries are ints

  datatype Error =
    | KeySize | NonceSize | CiphertextTooShort | TagMismatch
    | CompressionFailed | HeaderTooShort | ImplausibleLength | DecompressionFailed
    | InputTooShort | UpdateFailed | FinalFailed

  // ---------- LZ4 framing ----------

  datatype Codec = Codec(compress: Bytes -> Option<Bytes>, decompress: (Bytes, nat) -> Option<Bytes>)

  /** LZ4_compressBound for an admissible length. */
  function Bound(n: nat): nat {
    n + n / 255 + 16
  }

  /** What LZ4 documents: output is not empty and within the bound, decompressing it with room for
      the input gives the input back, and decompression never exceeds the room it is given. */
  ghost predicate Lawful(codec: Codec) {
    && (forall x: Bytes | codec.compress(x).Some? ::
          var c := codec.compress(x).value;
          0 < |c| <= Bound(|x|) && codec.decompress(c, |x|) == Some(x))
    && (forall c: Bytes, room: nat | codec.decompress(c, room).Some? ::
          |codec.decompress(c, room).value| <= room)
  }

  /** A size converted to int. */
  function Int32(n: nat): int {
    var low := n % TWO_32;
    if low <= INT_MAX then low else low - TWO_32
  }

  /** The one number in the range of int that agrees with the size modulo 2^32. */
  lemma Int32Is(n: nat)
    ensures -0x8000_0000 <= Int32(n) <= 0x7FFF_FFFF
    ensures (n - Int32(n)) % 0x1_0000_0000 == 0
  {
  }

  /** What a library call sees of a buffer whose length it takes as an int. The libraries ask for
      lengths that are not negative. */
  function Passed(x: Bytes): (r: Bytes)
    requires Int32(|x|) >= 0
    ensures |r| <= INT_MAX
  {
    x[..Int32(|x|)]
  }

  lemma PassedWhole(x: Bytes)
    requires |x| <= INT_MAX
    ensures Int32(|x|) >= 0 && Passed(x) == x
  {
  }

  /** LZ4_compress_default over the first (int)size bytes. For a length that is negative or too
      large the bound, and with it the room for output, is zero, and nothing is compressed. */
  function CompressBlock(codec: Codec, src: Bytes): Option<Bytes> {
    var n := Int32(|src|);
    if 0 <= n <= LZ4_MAX_INPUT_SIZE then codec.compress(src[..n]) else None
  }

  function Compressed(codec: Codec, src: Bytes): Result<Bytes, Error> {
    match CompressBlock(codec, src)
    case Some(c) => Success(BigEndian(|src|, 4) + c)
    case None => Failure(CompressionFailed)
  }

  function Decompressed(codec: Codec, src: Bytes): Result<Bytes, Error> {
    if |src| < 4 then Failure(HeaderTooShort)
    else
      var length := ReadU32(src);
      if length > MAX_DATA_SIZE then Failure(ImplausibleLength)
      else match codec.decompress(src[4..], length)
        case Some(x) => Success(x)
        case None => Failure(DecompressionFailed)
  }

  method Lz4Compress(codec: Codec, src: Bytes) returns (r: Result<Bytes, Error>)
    requires Lawful(codec)
    ensures r == Compressed(codec, src)
  {
    var n := Int32(|src|);
    if n < 0 || n > LZ4_MAX_INPUT_SIZE {
      return Failure(CompressionFailed);
    }
    var dst := new byte[4 + Bound(n)];
    WriteU32(dst, |src|);
    var compressed := codec.compress(src[..n]);
    if compressed.None? {
      return Failure(CompressionFailed);
    }
    var c := compressed.value;
    forall i | 0 <= i < |c| {
      dst[4 + i] := c[i];
    }
    assert dst[..4] == BigEndian(|src|, 4);
    assert dst[..4 + |c|] == dst[..4] + c;
    return Success(dst[..4 + |c|]);
  }

  method Lz4Decompress(codec: Codec, src: Bytes) returns (r: Result<Bytes, Error>)
    requires Lawful(codec)
    ensures r == Decompressed(codec, src)
    ensures r.Success? ==> |src| >= 4 && |r.value| <= ReadU32(src) <= MAX_DATA_SIZE
    ensures r == Failure(HeaderTooShort) <==> |src| < 4
    ensures r == Failure(ImplausibleLength) <==> |src| >= 4 && ReadU32(src) > MAX_DATA_SIZE
  {
    if |src| < 4 {
      return Failure(HeaderTooShort);
    }
    var originalLength := ReadU32(src);
    if originalLength > MAX_DATA_SIZE {
      return Failure(ImplausibleLength);
    }
    var result := codec.decompress(src[4..], originalLength);
    if result.None? {
      return Failure(DecompressionFailed);
    }
    return Success(result.value);
  }

  // ---------- one-shot encryption ----------

  function Sealed(p: Primitives, key: Bytes, nonce: Bytes, plaintext: Bytes): Result<Bytes, Error> {
    if |key| != KEY_SIZE then Failure(KeySize)
    else if |nonce| != NONCE_SIZE then Failure(NonceSize)
    else Success(Seal(SetupOf(p, key, nonce), plaintext))
  }

  function Opened(p: Primitives, key: Bytes, nonce: Bytes, ciphertext: Bytes): Result<Bytes, Error> {
    if |key| != KEY_SIZE then Failure(KeySize)
    else if |nonce| != NONCE_SIZE then Failure(NonceSize)
    else if |ciphertext| < TAG_SIZE then Failure(CiphertextTooShort)
    else match Open(SetupOf(p, key, nonce), ciphertext)
      case Some(plaintext) => Success(plaintext)
      case None => Failure(TagMismatch)
  }

  lemma FromNothing(setup: Setup, input: Bytes, output: Bytes)
    ensures [] + input == input
    ensures Cipher(setup, []) + output == output
  {
    assert Cipher(setup, []) == [];
  }

  /** One message through a fresh context: set up, one update, and the tag. */
  method Process(setup: Setup, encrypting: bool, input: Bytes) returns (output: Bytes, tag: Bytes)
    requires |input| <= MESSAGE_LIMIT
    ensures output == Cipher(setup, input)
    ensures tag == Tag(setup, if encrypting then output else input)
  {
    var ctx := new CipherContext();
    ctx.Init(encrypting, setup);
    var updated, finished;
    output, updated := ctx.Update(input);
    FromNothing(setup, input, output);
    tag, finished := ctx.Finish();
  }

  method AesGcmEncrypt(p: Primitives, plaintext: Bytes, key: Bytes, nonce: Bytes)
    returns (r: Result<Bytes, Error>)
    requires Int32(|plaintext|) >= 0
    ensures r == Sealed(p, key, nonce, Passed(plaintext))
  {
    if |key| != KEY_SIZE {
      return Failure(KeySize);
    }
    if |nonce| != NONCE_SIZE {
      return Failure(NonceSize);
    }
    var ciphertext, tag := Process(SetupOf(p, key, nonce), true, Passed(plaintext));
    return Success(ciphertext + tag);
  }

  lemma OpenSplit(setup: Setup, ciphertext: Bytes, tag: Bytes, sealed: Bytes)
    requires sealed == ciphertext + tag && |tag| == TAG_SIZE
    ensures Open(setup, sealed)
         == if tag == Tag(setup, ciphertext) then Some(Cipher(setup, ciphertext)) else None
  {
    assert sealed[..|sealed| - 16] == ciphertext && sealed[|sealed| - 16..] == tag;
  }

  lemma OpenedIs(p: Primitives, key: Bytes, nonce: Bytes, body: Bytes, tag: Bytes, ciphertext: Bytes)
    requires |key| == KEY_SIZE && |nonce| == NONCE_SIZE && |tag| == TAG_SIZE && ciphertext == body + tag
    ensures var setup := SetupOf(p, key, nonce);
            Opened(p, key, nonce, ciphertext)
              == if tag == Tag(setup, body) then Success(Cipher(setup, body)) else Failure(TagMismatch)
  {
    OpenSplit(SetupOf(p, key, nonce), body, tag, ciphertext);
  }

  /** Text and tag as decryption sees them: the tag is found from the true length. */
  function PassedSealed(sealed: Bytes): Bytes
    requires |sealed| >= TAG_SIZE ==> Int32(|sealed| - TAG_SIZE) >= 0
  {
    if |sealed| < TAG_SIZE then sealed
    else Passed(sealed[..|sealed| - TAG_SIZE]) + sealed[|sealed| - TAG_SIZE..]
  }

  lemma PassedSealedWhole(sealed: Bytes)
    requires |sealed| <= INT_MAX
    ensures |sealed| >= TAG_SIZE ==> Int32(|sealed| - TAG_SIZE) >= 0
    ensures PassedSealed(sealed) == sealed
  {
    if |sealed| >= TAG_SIZE {
      PassedWhole(sealed[..|sealed| - TAG_SIZE]);
      assert sealed == sealed[..|sealed| - TAG_SIZE] + sealed[|sealed| - TAG_SIZE..];
    }
  }

  method AesGcmDecrypt(p: Primitives, ciphertext: Bytes, key: Bytes, nonce: Bytes)
    returns (r: Result<Bytes, Error>)
    requires |ciphertext| >= TAG_SIZE ==> Int32(|ciphertext| - TAG_SIZE) >= 0
    ensures r == Opened(p, key, nonce, PassedSealed(ciphertext))
  {
    if |key| != KEY_SIZE {
      return Failure(KeySize);
    }
    if |nonce| != NONCE_SIZE {
      return Failure(NonceSize);
    }
    if |ciphertext| < TAG_SIZE {
      return Failure(CiphertextTooShort);
    }
    var length := |ciphertext| - TAG_SIZE;
    var body, tag := Passed(ciphertext[..length]), ciphertext[length..];
    var plaintext, expected := Process(SetupOf(p, key, nonce), false, body);
    OpenedIs(p, key, nonce, body, tag, PassedSealed(ciphertext));
    if tag != expected {
      return Failure(TagMismatch);
    }
    return Success(plaintext);
  }

  // ---------- the streamer ----------

  function Frame(codec: Codec, p: Primitives, key: Bytes, nonce: Bytes, src: Bytes): Result<Bytes, Error> {
    match Compressed(codec, src)
    case Failure(e) => Failure(e)
    case Success(compressed) =>
      match Sealed(p, key, nonce, compressed)
      case Failure(e) => Failure(e)
      case Success(encrypted) => Success(nonce + encrypted)
  }

  function Unframe(codec: Codec, p: Primitives, key: Bytes, src: Bytes): Result<Bytes, Error> {
    if |src| < NONCE_SIZE + TAG_SIZE then Failure(InputTooShort)
    else match Opened(p, key, src[..NONCE_SIZE], src[NONCE_SIZE..])
      case Failure(e) => Failure(e)
      case Success(compressed) => Decompressed(codec, compressed)
  }

  /** A frame as decryption sees it. */
  function PassedFrame(frame: Bytes): Bytes
    requires |frame| >= NONCE_SIZE + TAG_SIZE ==> Int32(|frame| - NONCE_SIZE - TAG_SIZE) >= 0
  {
    if |frame| < NONCE_SIZE + TAG_SIZE then frame else frame[..NONCE_SIZE] + PassedSealed(frame[NONCE_SIZE..])
  }

  lemma PassedFrameParts(frame: Bytes)
    requires |frame| >= NONCE_SIZE + TAG_SIZE && Int32(|frame| - NONCE_SIZE - TAG_SIZE) >= 0
    ensures var seen := PassedFrame(frame);
            && |seen| >= NONCE_SIZE + TAG_SIZE
            && seen[..NONCE_SIZE] == frame[..NONCE_SIZE]
            && seen[NONCE_SIZE..] == PassedSealed(frame[NONCE_SIZE..])
  {
  }

  lemma PassedFrameWhole(frame: Bytes)
    requires |frame| <= INT_MAX
    ensures |frame| >= NONCE_SIZE + TAG_SIZE ==> Int32(|frame| - NONCE_SIZE - TAG_SIZE) >= 0
    ensures PassedFrame(frame) == frame
  {
    if |frame| >= NONCE_SIZE + TAG_SIZE {
      PassedSealedWhole(frame[NONCE_SIZE..]);
      assert frame == frame[..NONCE_SIZE] + frame[NONCE_SIZE..];
    }
  }

  class Streamer {
    const codec: Codec
    const primitives: Primitives
    const key: Bytes
    const ctx: CipherContext
    var buffer: Bytes

    ghost predicate Valid()
      reads this, ctx
    {
      && Lawful(codec) && |key| == KEY_SIZE
      && ctx.Valid()
      && (ctx.phase == Running ==> ctx.encrypting && buffer == Cipher(ctx.setup, ctx.input))
    }

    constructor (codec: Codec, primitives: Primitives, key: Bytes)
      requires Lawful(codec) && |key| == KEY_SIZE
      ensures Valid() && fresh(ctx) && ctx.phase == Idle
      ensures this.codec == codec && this.primitives == primitives && this.key == key
    {
      this.codec, this.primitives, this.key := codec, primitives, key;
      ctx := new CipherContext();
      buffer := [];
    }

    method CompressEncrypt(src: Bytes, nonce: Bytes) returns (r: Result<Bytes, Error>)
      requires Valid() && |nonce| == NONCE_SIZE
      ensures r == Frame(codec, primitives, key, nonce, src)
    {
      var compressed := Lz4Compress(codec, src);
      if compressed.Failure? {
        return Failure(compressed.error);
      }
      CompressedFits(codec, src);
      PassedWhole(compressed.value);
      var encrypted := AesGcmEncrypt(primitives, compressed.value, key, nonce);
      var total := NONCE_SIZE + |encrypted.value|;
      var out := new byte[total];
      forall i | 0 <= i < NONCE_SIZE {
        out[i] := nonce[i];
      }
      forall i | 0 <= i < |encrypted.value| {
        out[NONCE_SIZE + i] := encrypted.value[i];
      }
      assert out[..] == nonce + encrypted.value;
      return Success(out[..]);
    }

    method DecryptDecompress(src: Bytes) returns (r: Result<Bytes, Error>)
      requires Valid()
      requires |src| >= NONCE_SIZE + TAG_SIZE ==> Int32(|src| - NONCE_SIZE - TAG_SIZE) >= 0
      ensures r == Unframe(codec, primitives, key, PassedFrame(src))
    {
      if |src| < NONCE_SIZE + TAG_SIZE {
        return Failure(InputTooShort);
      }
      PassedFrameParts(src);
      var compressed := AesGcmDecrypt(primitives, src[NONCE_SIZE..], key, src[..NONCE_SIZE]);
      if compressed.Failure? {
        return Failure(compressed.error);
      }
      r := Lz4Decompress(codec, compressed.value);
    }

    method EncryptBegin(nonce: Bytes)
      requires Valid() && |nonce| == NONCE_SIZE
      modifies this, ctx
      ensures Valid() && ctx.phase == Running && ctx.input == []
      ensures ctx.setup == SetupOf(primitives, key, nonce)
    {
      ctx.Init(true, SetupOf(primitives, key, nonce));
      buffer := [];
      FromNothing(ctx.setup, [], []);
    }

    /** Throws, here ok is false, when no message is open or it would become too long. */
    method EncryptUpdate(chunk: Bytes) returns (ok: bool)
      requires Valid() && Int32(|chunk|) >= 0
      modifies this, ctx
      ensures Valid() && ctx.phase == old(ctx.phase) && ctx.setup == old(ctx.setup)
      ensures ok <==> old(ctx.phase) == Running && |old(ctx.input)| + |Passed(chunk)| <= MESSAGE_LIMIT
      ensures ctx.input == if ok then old(ctx.input) + Passed(chunk) else old(ctx.input)
    {
      var out;
      out, ok := ctx.Update(Passed(chunk));
      if ok {
        buffer := buffer + out;
      }
    }

    /** The accumulated ciphertext and its tag: the encryption of the whole message. */
    method EncryptFinal() returns (r: Result<Bytes, Error>)
      requires Valid()
      modifies this, ctx
      ensures Valid() && ctx.phase != Running
      ensures r == if old(ctx.phase) == Running then Success(Seal(old(ctx.setup), old(ctx.input)))
                   else Failure(FinalFailed)
    {
      var tag, ok := ctx.Finish();
      if !ok {
        return Failure(FinalFailed);
      }
      buffer := buffer + tag;
      return Success(buffer);
    }
  }

  lemma CompressedFits(codec: Codec, src: Bytes)
    requires Lawful(codec) && Compressed(codec, src).Success?
    ensures |Compressed(codec, src).value| + NONCE_SIZE + TAG_SIZE <= INT_MAX
  {
    var n := Int32(|src|);
    assert codec.compress(src[..n]).Some?;
  }

  // ---------- streaming refines one-shot ----------

  function Joined(chunks: seq<Bytes>): Bytes {
    if chunks == [] then [] else Joined(chunks[..|chunks| - 1]) + chunks[|chunks| - 1]
  }

  /** What a series of update calls feeds to the cipher. */
  function Fed(chunks: seq<Bytes>): Bytes
    requires forall i | 0 <= i < |chunks| :: Int32(|chunks[i]|) >= 0
  {
    if chunks == [] then [] else Fed(chunks[..|chunks| - 1]) + Passed(chunks[|chunks| - 1])
  }

  lemma {:induction false} FedWhole(chunks: seq<Bytes>)
    requires forall i | 0 <= i < |chunks| :: |chunks[i]| <= INT_MAX
    ensures forall i | 0 <= i < |chunks| :: Int32(|chunks[i]|) >= 0
    ensures Fed(chunks) == Joined(chunks)
  {
    if chunks != [] {
      FedWhole(chunks[..|chunks| - 1]);
      PassedWhole(chunks[|chunks| - 1]);
    }
  }

  /** The streaming loop: whatever the chunks, the result is that of encrypting in one call what
      they feed to the cipher, as long as the mode admits it. */
  method EncryptChunks(streamer: Streamer, nonce: Bytes, chunks: seq<Bytes>) returns (r: Result<Bytes, Error>)
    requires streamer.Valid() && |nonce| == NONCE_SIZE
    requires forall i | 0 <= i < |chunks| :: Int32(|chunks[i]|) >= 0
    modifies streamer, streamer.ctx
    ensures r == if |Fed(chunks)| <= 0xF_FFFF_FFE0
                 then Sealed(streamer.primitives, streamer.key, nonce, Fed(chunks))
                 else Failure(UpdateFailed)
  {
    streamer.EncryptBegin(nonce);
    var ok := UpdateAll(streamer, chunks);
    if !ok {
      return Failure(UpdateFailed);
    }
    r := streamer.EncryptFinal();
  }

  /** The update calls, up to the first one that is refused. */
  method UpdateAll(streamer: Streamer, chunks: seq<Bytes>) returns (ok: bool)
    requires streamer.Valid() && streamer.ctx.phase == Running && streamer.ctx.input == []
    requires forall i | 0 <= i < |chunks| :: Int32(|chunks[i]|) >= 0
    modifies streamer, streamer.ctx
    ensures streamer.Valid() && streamer.ctx.phase == Running
    ensures streamer.ctx.setup == old(streamer.ctx.setup)
    ensures ok <==> |Fed(chunks)| <= MESSAGE_LIMIT
    ensures ok ==> streamer.ctx.input == Fed(chunks)
  {
    for i := 0 to |chunks|
      invariant streamer.Valid() && streamer.ctx.phase == Running
      invariant streamer.ctx.setup == old(streamer.ctx.setup)
      invariant streamer.ctx.input == Fed(chunks[..i]) && |streamer.ctx.input| <= MESSAGE_LIMIT
    {
      FedSnoc(chunks, i);
      FedPrefix(chunks, i + 1);
      ok := streamer.EncryptUpdate(chunks[i]);
      if !ok {
        return;
      }
    }
    assert chunks[..|chunks|] == chunks;
    ok := true;
  }

  lemma FedSnoc(chunks: seq<Bytes>, i: nat)
    requires i < |chunks|
    requires forall j | 0 <= j < |chunks| :: Int32(|chunks[j]|) >= 0
    ensures Fed(chunks[..i + 1]) == Fed(chunks[..i]) + Passed(chunks[i])
  {
    assert chunks[..i + 1][..i] == chunks[..i];
  }

  lemma {:induction false} FedPrefix(chunks: seq<Bytes>, i: nat)
    requires i <= |chunks|
    requires forall j | 0 <= j < |chunks| :: Int32(|chunks[j]|) >= 0
    ensures |Fed(chunks[..i])| <= |Fed(chunks)|
  {
    if i == |chunks| {
      assert chunks[..i] == chunks;
    } else {
      assert chunks[..|chunks| - 1][..i] == chunks[..i];
      FedPrefix(chunks[..|chunks| - 1], i);
    }
  }

  /** One-shot and streamed encryption of the same message agree, whatever the chunks, up to the
      longest message that one call can take. */
  method EncryptBothWays(streamer: Streamer, nonce: Bytes, chunks: seq<Bytes>)
    returns (streamed: Result<Bytes, Error>, oneShot: Result<Bytes, Error>)
    requires streamer.Valid() && |nonce| == NONCE_SIZE && |Joined(chunks)| <= INT_MAX
    modifies streamer, streamer.ctx
    ensures streamed == oneShot
  {
    ChunksFit(chunks);
    FedWhole(chunks);
    PassedWhole(Joined(chunks));
    streamed := EncryptChunks(streamer, nonce, chunks);
    oneShot := AesGcmEncrypt(streamer.primitives, Joined(chunks), streamer.key, nonce);
  }

  lemma {:induction false} ChunksFit(chunks: seq<Bytes>)
    ensures forall i | 0 <= i < |chunks| :: |chunks[i]| <= |Joined(chunks)|
  {
    if chunks != [] {
      ChunksFit(chunks[..|chunks| - 1]);
    }
  }

  // ---------- the one-shot round trip ----------

  /** What LZ4 takes: at most 0x7E000000 bytes, counted in 32 bits, that it can compress. */
  predicate Compressible(codec: Codec, src: Bytes) {
    && |src| % 0x1_0000_0000 <= 0x7E00_0000
    && codec.compress(src[..|src| % 0x1_0000_0000]).Some?
  }

  lemma CompressesExactly(codec: Codec, src: Bytes)
    ensures CompressBlock(codec, src).Some? <==> Compressible(codec, src)
    ensures Compressible(codec, src) ==>
              CompressBlock(codec, src) == Some(Packed(codec, src))
  {
  }

  /** What LZ4 makes of it. */
  function Packed(codec: Codec, src: Bytes): Bytes
    requires Compressible(codec, src)
  {
    codec.compress(src[..|src| % 0x1_0000_0000]).value
  }

  /** What Lawful says of one input. */
  lemma BlockInverts(codec: Codec, src: Bytes)
    requires Lawful(codec) && Compressible(codec, src)
    ensures codec.decompress(Packed(codec, src), |src| % TWO_32) == Some(Counted(src))
  {
    assert codec.compress(src[..|src| % TWO_32]).Some?;
  }

  /** A frame is made exactly of what LZ4 takes: the low 32 bits of the length are at most
      0x7E000000, and the bytes that they count can be compressed. It is the nonce followed by the
      sealing of the length, in four bytes, and the compressed bytes. */
  lemma FrameExactly(codec: Codec, p: Primitives, key: Bytes, nonce: Bytes, src: Bytes)
    requires |key| == 32 && |nonce| == 12
    ensures var n := |src| % 0x1_0000_0000;
            Frame(codec, p, key, nonce, src) ==
              if n <= 0x7E00_0000 && codec.compress(src[..n]).Some? then
                var header := [n / 0x100_0000, n / 0x1_0000 % 0x100, n / 0x100 % 0x100, n % 0x100];
                Success(nonce + Seal(SetupOf(p, key, nonce), header + codec.compress(src[..n]).value))
              else Failure(CompressionFailed)
  {
    CompressesExactly(codec, src);
    if Compressible(codec, src) {
      FrameIs(codec, p, key, nonce, src);
      HeaderSpelled(|src|);
    }
  }

  /** Whatever is at most 0x7E000000 bytes long is framed if LZ4 can compress it. */
  lemma ShortFramed(codec: Codec, p: Primitives, key: Bytes, nonce: Bytes, src: Bytes)
    requires |key| == 32 && |nonce| == 12
    requires |src| <= 0x7E00_0000 && codec.compress(src).Some?
    ensures Compressible(codec, src) && Frame(codec, p, key, nonce, src).Success?
  {
    assert src[..|src| % 0x1_0000_0000] == src;
    FrameExactly(codec, p, key, nonce, src);
  }

  /** The bytes that the 32-bit length of the header accounts for. */
  function Counted(src: Bytes): Bytes {
    src[..|src| % TWO_32]
  }

  lemma CountedWhole(src: Bytes)
    ensures |src| < TWO_32 ==> Counted(src) == src
    ensures |Counted(src)| <= MAX_DATA_SIZE && Counted(src) == src <==> |src| <= MAX_DATA_SIZE
  {
  }

  /** Decompression of a compressed input, in full: the header carries the low 32 bits of the
      length, and the length limit is checked against it. */
  lemma DecompressedIs(codec: Codec, src: Bytes)
    requires Lawful(codec) && Compressible(codec, src)
    ensures Compressed(codec, src).Success?
    ensures Decompressed(codec, Compressed(codec, src).value)
         == if |Counted(src)| <= MAX_DATA_SIZE then Success(Counted(src)) else Failure(ImplausibleLength)
  {
    var n := |src| % TWO_32;
    CompressesExactly(codec, src);
    var c := Packed(codec, src);
    HeaderLow(|src|);
    HeaderRoundTrip(n, c);
    BlockInverts(codec, src);
    assert (BigEndian(|src|, 4) + c)[4..] == c;
  }

  /** Whatever can be compressed comes back exactly when it is at most 256 MiB long. The frame is
      the nonce, the header, the compressed data and the tag. */
  lemma RoundTripExactly(codec: Codec, p: Primitives, key: Bytes, nonce: Bytes, src: Bytes)
    requires Lawful(codec) && |key| == 32 && |nonce| == 12
    requires |src| % 0x1_0000_0000 <= 0x7E00_0000 && codec.compress(src[..|src| % 0x1_0000_0000]).Some?
    ensures var frame := Frame(codec, p, key, nonce, src);
            && frame.Success?
            && |frame.value| == 12 + 4 + |codec.compress(src[..|src| % 0x1_0000_0000]).value| + 16
            && frame.value[..12] == nonce
            && (Unframe(codec, p, key, frame.value) == Success(src) <==> |src| <= 256 * 1024 * 1024)
  {
    FrameDecompresses(codec, p, key, nonce, src);
    DecompressedIs(codec, src);
    CountedWhole(src);
  }

  lemma FrameDecompresses(codec: Codec, p: Primitives, key: Bytes, nonce: Bytes, src: Bytes)
    requires |key| == KEY_SIZE && |nonce| == NONCE_SIZE && Compressible(codec, src)
    ensures Compressed(codec, src).Success?
    ensures var frame := Frame(codec, p, key, nonce, src);
            && frame.Success?
            && |frame.value| == 12 + 4 + |Packed(codec, src)| + 16
            && frame.value[..12] == nonce
            && Unframe(codec, p, key, frame.value) == Decompressed(codec, Compressed(codec, src).value)
  {
    FrameIs(codec, p, key, nonce, src);
    UnframeSealed(codec, p, key, nonce, Compressed(codec, src).value);
  }

  /** What opening a frame returns, for inputs of every length. */
  lemma FrameReturns(codec: Codec, p: Primitives, key: Bytes, nonce: Bytes, src: Bytes)
    requires Lawful(codec) && |key| == 32 && |nonce| == 12 && Compressible(codec, src)
    ensures Frame(codec, p, key, nonce, src).Success?
    ensures Unframe(codec, p, key, Frame(codec, p, key, nonce, src).value)
         == if |Counted(src)| <= 256 * 1024 * 1024 then Success(Counted(src)) else Failure(ImplausibleLength)
  {
    FrameDecompresses(codec, p, key, nonce, src);
    DecompressedIs(codec, src);
  }

  lemma FrameIs(codec: Codec, p: Primitives, key: Bytes, nonce: Bytes, src: Bytes)
    requires |key| == KEY_SIZE && |nonce| == NONCE_SIZE && Compressible(codec, src)
    ensures Compressed(codec, src).Success?
    ensures Compressed(codec, src).value
         == BigEndian(|src|, 4) + Packed(codec, src)
    ensures Frame(codec, p, key, nonce, src)
         == Success(nonce + Seal(SetupOf(p, key, nonce), Compressed(codec, src).value))
  {
    CompressesExactly(codec, src);
  }

  lemma UnframeSealed(codec: Codec, p: Primitives, key: Bytes, nonce: Bytes, compressed: Bytes)
    requires |key| == KEY_SIZE && |nonce| == NONCE_SIZE
    ensures var frame := nonce + Sealed(p, key, nonce, compressed).value;
            && Unframe(codec, p, key, frame) == Decompressed(codec, compressed)
            && |frame| == NONCE_SIZE + |compressed| + TAG_SIZE && frame[..12] == nonce
  {
    var setup := SetupOf(p, key, nonce);
    var frame := nonce + Seal(setup, compressed);
    assert frame[..NONCE_SIZE] == nonce && frame[NONCE_SIZE..] == Seal(setup, compressed);
    OpenExactly(setup, Seal(setup, compressed), compressed);
  }

  /** Keys and nonces of the wrong size are refused, and so is anything without room for a tag. */
  lemma SizesRefused(p: Primitives, key: Bytes, nonce: Bytes, text: Bytes)
    ensures |key| != 32 ==> Sealed(p, key, nonce, text) == Opened(p, key, nonce, text) == Failure(KeySize)
    ensures |key| == 32 && |nonce| != 12 ==>
              Sealed(p, key, nonce, text) == Opened(p, key, nonce, text) == Failure(NonceSize)
    ensures |key| == 32 && |nonce| == 12 ==> Sealed(p, key, nonce, text) == Success(Seal(SetupOf(p, key, nonce), text))
    ensures |key| == 32 && |nonce| == 12 && |text| < 16 ==> Opened(p, key, nonce, text) == Failure(CiphertextTooShort)
  {
  }

  /** A frame without room for nonce and tag is too short, and any other that nothing was sealed into
      fails by its tag: nothing is decompressed. */
  lemma FramesRefused(codec: Codec, p: Primitives, key: Bytes, frame: Bytes)
    requires |key| == 32
    ensures |frame| < 28 ==> Unframe(codec, p, key, frame) == Failure(InputTooShort)
    ensures |frame| >= 28 && (forall text :: frame[12..] != Seal(SetupOf(p, key, frame[..12]), text)) ==>
              Unframe(codec, p, key, frame) == Failure(TagMismatch)
  {
    if |frame| >= 28 {
      var setup := SetupOf(p, key, frame[..12]);
      var text := Open(setup, frame[12..]);
      if text.Some? {
        OpenExactly(setup, frame[12..], text.value);
      }
    }
  }

  /** A frame is accepted only if it was made, under this key, from what it decompresses. */
  lemma AcceptedFrames(codec: Codec, p: Primitives, key: Bytes, frame: Bytes)
    requires |key| == KEY_SIZE && Unframe(codec, p, key, frame).Success?
    ensures |frame| >= NONCE_SIZE
    ensures exists compressed ::
              && frame == frame[..NONCE_SIZE] + Seal(SetupOf(p, key, frame[..NONCE_SIZE]), compressed)
              && Decompressed(codec, compressed) == Unframe(codec, p, key, frame)
  {
    var setup := SetupOf(p, key, frame[..NONCE_SIZE]);
    var compressed := Open(setup, frame[NONCE_SIZE..]).value;
    OpenExactly(setup, frame[NONCE_SIZE..], compressed);
    assert frame == frame[..NONCE_SIZE] + frame[NONCE_SIZE..];
  }
}
