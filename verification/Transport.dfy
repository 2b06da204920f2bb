/** From captured state to encrypted frame and back: archive, compression and encryption together,
    with the one nonce that the frame carries (internal/extractor/transport.go:69-161). */
module Transport {
  import opened Wrappers
  import opened Encoding
  import opened State
  import opened Archive
  import opened Words
  import opened Gcm
  import opened Streamer

  /** An archive format: how entries are written, and how they are read if they can be. */
  datatype Tar = Tar(write: seq<Entry> -> Bytes, read: Bytes -> Option<seq<Entry>>)

  /** The entries, in this order, can be read back. The format need not do this for any others. */
  predicate Readable(tar: Tar, entries: seq<Entry>) {
    tar.read(tar.write(entries)) == Some(entries)
  }

  ghost function Unarchived(tar: Tar, bytes: Bytes, decode: Decoder): Option<SystemState> {
    match tar.read(bytes)
    case None => None
    case Some(entries) => UnpackedFrom(NOTHING, entries, decode)
  }

  /** What becomes of a frame on the receiving side. */
  ghost function Received(tar: Tar, codec: Codec, p: Primitives, key: Bytes, frame: Bytes, decode: Decoder)
    : Option<SystemState>
  {
    match Unframe(codec, p, key, frame)
    case Failure(_) => None
    case Success(bytes) => Unarchived(tar, bytes, decode)
  }

  /** A state's archive, framed by the sender and received. */
  ghost function Carried(tar: Tar, codec: Codec, p: Primitives, key: Bytes, nonce: Bytes, bytes: Bytes, decode: Decoder)
    : Option<SystemState>
  {
    match Frame(codec, p, key, nonce, bytes)
    case Failure(_) => None
    case Success(frame) => Received(tar, codec, p, key, frame, decode)
  }

  /** Only the low 32 bits of a length reach the frame: an archive of 4 GiB or more is refused or
      cut off. */
  lemma ReceivedIs(tar: Tar, codec: Codec, p: Primitives, key: Bytes, nonce: Bytes, bytes: Bytes, decode: Decoder)
    requires Lawful(codec) && |key| == KEY_SIZE && |nonce| == NONCE_SIZE && Compressible(codec, bytes)
    ensures Carried(tar, codec, p, key, nonce, bytes, decode)
         == if |Counted(bytes)| <= MAX_DATA_SIZE then Unarchived(tar, Counted(bytes), decode) else None
  {
    FrameReturns(codec, p, key, nonce, bytes);
  }

  lemma UnarchivedIs(tar: Tar, packed: SystemState, metadata: Bytes, entries: seq<Entry>, decode: Decoder)
    requires PackedAs(entries, packed, metadata) && Readable(tar, entries)
    ensures Unarchived(tar, tar.write(entries), decode) == Some(packed) <==> BringsNothing(decode(metadata), packed)
  {
    RoutingInverts(packed, metadata, entries, decode);
  }

  /** A packed state whose archive is shorter than 4 GiB arrives exactly when the archive is at most
      256 MiB long and its metadata brings no file name that was not packed. */
  lemma StateArrives(tar: Tar, codec: Codec, p: Primitives, key: Bytes, nonce: Bytes,
                     packed: SystemState, metadata: Bytes, entries: seq<Entry>, decode: Decoder, bytes: Bytes)
    requires Lawful(codec) && |key| == KEY_SIZE && |nonce| == NONCE_SIZE
    requires PackedAs(entries, packed, metadata) && Readable(tar, entries) && bytes == tar.write(entries)
    requires Compressible(codec, bytes) && |bytes| < TWO_32
    ensures Carried(tar, codec, p, key, nonce, bytes, decode) == Some(packed)
       <==> |bytes| <= MAX_DATA_SIZE && BringsNothing(decode(metadata), packed)
  {
    ReceivedIs(tar, codec, p, key, nonce, bytes, decode);
    UnarchivedIs(tar, packed, metadata, entries, decode);
    CountedWhole(bytes);
  }

  /** Framing, opening and unpacking on the program itself. Nothing is returned when some step
      refuses. */
  method Deliver(tar: Tar, streamer: Streamer, nonce: Bytes, bytes: Bytes, decode: Decoder)
    returns (received: Option<SystemState>)
    requires streamer.Valid() && |nonce| == NONCE_SIZE
    ensures received
         == Carried(tar, streamer.codec, streamer.primitives, streamer.key, nonce, bytes, decode)
  {
    var frame := streamer.CompressEncrypt(bytes, nonce);
    if frame.Failure? {
      return None;
    }
    FrameFits(streamer.codec, streamer.primitives, streamer.key, nonce, bytes);
    PassedFrameWhole(frame.value);
    var plain := streamer.DecryptDecompress(frame.value);
    if plain.Failure? {
      return None;
    }
    var listing := tar.read(plain.value);
    if listing.None? {
      return None;
    }
    received := Unpack(listing.value, decode);
  }

  /** From state to state, with the maps written and the prefixes tried in any order. */
  method Ship(tar: Tar, streamer: Streamer, nonce: Bytes, packed: SystemState, metadata: Bytes, decode: Decoder)
    returns (bytes: Bytes, received: Option<SystemState>)
    requires streamer.Valid() && |nonce| == NONCE_SIZE
    requires forall entries | PackedAs(entries, packed, metadata) :: Readable(tar, entries)
    ensures exists entries :: PackedAs(entries, packed, metadata) && bytes == tar.write(entries)
    ensures !Compressible(streamer.codec, bytes) ==> received.None?
    ensures Compressible(streamer.codec, bytes) && |bytes| < TWO_32 ==>
              (received == Some(packed) <==>
               |bytes| <= MAX_DATA_SIZE && BringsNothing(decode(metadata), packed))
  {
    var entries := Pack(packed, metadata);
    bytes := tar.write(entries);
    received := Deliver(tar, streamer, nonce, bytes, decode);
    if Compressible(streamer.codec, bytes) && |bytes| < TWO_32 {
      StateArrives(tar, streamer.codec, streamer.primitives, streamer.key, nonce,
                   packed, metadata, entries, decode, bytes);
    }
  }

  lemma FrameFits(codec: Codec, p: Primitives, key: Bytes, nonce: Bytes, src: Bytes)
    requires Lawful(codec) && |key| == KEY_SIZE && |nonce| == NONCE_SIZE
    requires Frame(codec, p, key, nonce, src).Success?
    ensures |Frame(codec, p, key, nonce, src).value| <= INT_MAX
  {
    CompressedFits(codec, src);
    UnframeSealed(codec, p, key, nonce, Compressed(codec, src).value);
  }
}
