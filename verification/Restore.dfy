/** Verified restore of one file over an unreliable remote file system
    (internal/extractor/restore.go). */
module Restore {
  import opened Wrappers
  import opened Text
  import opened Encoding
  import opened Paths

  /** SHA-256 is any function to 32 bytes: nothing below relies on which one. */
  type Digest = d: Bytes | |d| == 32 witness seq(32, i => 0)

  type Hash = Bytes -> Digest

  // ---------- what the remote reports, and how it is read ----------

  datatype FileInfo = FileInfo(sha: string, size: int)

  /** A line of sha256sum. */
  function ShaLine(digest: Bytes, path: string): string {
    Hex(digest) + ("  " + path + "\n")
  }

  /** The output of stat -c %s. */
  function SizeLine(size: nat): string {
    Decimal(size) + "\n"
  }

  /** How inspectRemoteFile reads the two outputs. */
  function ParseInfo(shaOut: string, sizeOut: string): Option<FileInfo> {
    var fields := Fields(TrimSpace(shaOut));
    if TrimSpace(shaOut) == "" || fields == [] then None
    else if TrimSpace(sizeOut) == "" then None
    else
      var size :- Atoi(TrimSpace(sizeOut));
      Some(FileInfo(fields[0], size))
  }

  function InfoOf(data: Bytes, hash: Hash): FileInfo {
    FileInfo(Hex(hash(data)), |data|)
  }

  lemma HexWord(digest: Bytes)
    ensures forall i | 0 <= i < |Hex(digest)| :: !IsSpace(Hex(digest)[i])
  {
    HexShape(digest);
  }

  lemma DecimalTrimmed(n: int)
    ensures TrimSpace(Decimal(n) + "\n") == Decimal(n)
  {
    DecimalRoundTrip(n);
    var s := Decimal(n);
    TrimSpaceNewline(s);
    assert !IsSpace(s[0]) && !IsSpace(s[|s| - 1]);
  }

  /** Reading gives back what was reported; a size beyond the range of int is refused. */
  lemma InspectionRecovers(digest: Bytes, path: string, size: nat)
    requires digest != []
    ensures ParseInfo(ShaLine(digest, path), SizeLine(size))
         == if size <= MAX_INT then Some(FileInfo(Hex(digest), size)) else None
  {
    HexShape(digest);
    HexWord(digest);
    FirstField(Hex(digest), "  " + path + "\n");
    DecimalTrimmed(size);
    DecimalRoundTrip(size);
  }

  /** Two contents are reported alike exactly when digest and size agree. */
  lemma ReportsAlike(a: Bytes, b: Bytes, hash: Hash)
    ensures InfoOf(a, hash) == InfoOf(b, hash) <==> hash(a) == hash(b) && |a| == |b|
  {
    if Hex(hash(a)) == Hex(hash(b)) {
      HexInjective(hash(a), hash(b));
    }
  }

  // ---------- the write command ----------

  const ECHO_OPEN := "echo '"
  const TEE_OPEN := " | base64 -d | sudo tee "
  const TEE_CLOSE := " > /dev/null"

  function TeeScript(data: Bytes, path: string): string {
    ECHO_OPEN + Encode(data) + (['\''] + TEE_OPEN + path + TEE_CLOSE)
  }

  /** The text between the first two single quotes, which a shell passes on unchanged. */
  function QuotedWord(script: string): string {
    var i := IndexOf(script, '\'');
    if i == |script| then ""
    else
      var tail := script[i + 1..];
      tail[..IndexOf(tail, '\'')]
  }

  /** What follows the quoted argument of echo. */
  function AfterQuotes(script: string): Option<string> {
    var i := IndexOf(script, '\'');
    if i == |script| || script[..i] != "echo " then None
    else
      var tail := script[i + 1..];
      var j := IndexOf(tail, '\'');
      if j == |tail| then None else Some(tail[j + 1..])
  }

  /** The word between the name of the last program and the redirection of its output. */
  function TargetOf(rest: string): Option<string> {
    if |rest| >= 36 && rest[..24] == " | base64 -d | sudo tee " && rest[|rest| - 12..] == " > /dev/null"
    then Some(rest[24..|rest| - 12])
    else None
  }

  /** The file that the pipeline writes. */
  function TeeTarget(script: string): Option<string> {
    var rest :- AfterQuotes(script);
    TargetOf(rest)
  }

  /** What the pipeline feeds to tee. */
  function Delivered(script: string): Option<Bytes> {
    Decode(QuotedWord(script))
  }

  lemma EchoOpenShape()
    ensures |ECHO_OPEN| == 6 && ECHO_OPEN[5] == '\'' && forall i | 0 <= i < 5 :: ECHO_OPEN[i] != '\''
  {
  }

  lemma QuotedBetween(open: string, word: string, close: string)
    requires open != "" && open[|open| - 1] == '\'' && forall i | 0 <= i < |open| - 1 :: open[i] != '\''
    requires '\'' !in word && close != "" && close[0] == '\''
    ensures QuotedWord(open + word + close) == word
  {
    var script := open + word + close;
    IndexOfIs(script, '\'', |open| - 1);
    var tail := script[|open|..];
    assert tail == word + close;
    IndexOfIs(tail, '\'', |word|);
    assert tail[..|word|] == word;
  }

  /** The payload arrives byte for byte, whatever its length. */
  lemma TransferLossless(data: Bytes, path: string)
    ensures QuotedWord(TeeScript(data, path)) == Encode(data)
    ensures Delivered(TeeScript(data, path)) == Some(data)
  {
    EchoOpenShape();
    Base64QuoteFree(data);
    QuotedBetween(ECHO_OPEN, Encode(data), ['\''] + TEE_OPEN + path + TEE_CLOSE);
    Base64RoundTrip(data);
  }

  lemma TeeParts()
    ensures |TEE_OPEN| == 24 && TEE_OPEN == " | base64 -d | sudo tee "
    ensures |TEE_CLOSE| == 12 && TEE_CLOSE == " > /dev/null"
    ensures ECHO_OPEN == "echo " + ['\'']
  {
  }

  lemma TargetOfIs(path: string)
    ensures TargetOf(TEE_OPEN + path + TEE_CLOSE) == Some(path)
  {
    TeeParts();
    var rest := TEE_OPEN + path + TEE_CLOSE;
    assert rest[..24] == TEE_OPEN && rest[|rest| - 12..] == TEE_CLOSE && rest[24..|rest| - 12] == path;
  }

  lemma AfterQuotesIs(open: string, word: string, rest: string)
    requires open == "echo " && '\'' !in word
    ensures AfterQuotes(open + ['\''] + word + ['\''] + rest) == Some(rest)
  {
    var script := open + ['\''] + word + ['\''] + rest;
    var tail := word + ['\''] + rest;
    IndexOfIs(script, '\'', |open|);
    IndexOfIs(tail, '\'', |word|);
    assert script[..|open|] == open && script[|open| + 1..] == tail && tail[|word| + 1..] == rest;
  }

  lemma ScriptParts(open: string, word: string, path: string)
    requires ECHO_OPEN == open + ['\'']
    ensures ECHO_OPEN + word + (['\''] + TEE_OPEN + path + TEE_CLOSE)
         == open + ['\''] + word + ['\''] + (TEE_OPEN + path + TEE_CLOSE)
  {
  }

  /** The command writes the file that it is meant for. */
  lemma TeeTargetIs(data: Bytes, path: string)
    ensures TeeTarget(TeeScript(data, path)) == Some(path)
  {
    TeeParts();
    Base64QuoteFree(data);
    ScriptParts("echo ", Encode(data), path);
    AfterQuotesIs("echo ", Encode(data), TEE_OPEN + path + TEE_CLOSE);
    TargetOfIs(path);
  }

  // ---------- the remote file system ----------

  datatype Tree = Tree(files: map<Location, Bytes>, dirs: set<Location>)

  /** Whatever is above a file or a directory is a directory, and no directory is a file. The root
      is left out of the directories. */
  predicate Sound(t: Tree) {
    && (forall dir | dir in t.dirs :: dir != [] && Ancestors(dir) <= t.dirs)
    && (forall loc | loc in t.files :: loc != [] && loc !in t.dirs && Ancestors(loc[..|loc| - 1]) <= t.dirs)
  }

  type FileSystem = t: Tree | Sound(t) witness Tree(map[], {})

  /** What a disturbed write leaves behind. */
  datatype Residue = Kept | Left(content: Bytes)

  /** A write may be disturbed in any way, and may even report success when it was. */
  datatype TeeFault = Undisturbed | Disturbed(reported: bool, residue: Residue)

  /** The making of directories may fail after any number of them. */
  datatype MkdirFault = Unhindered | Stopped(after: nat)

  /** Which steps of one restore fail, in the order in which they run. */
  datatype Faults = Faults(
    lookSha: bool,
    lookSize: bool,
    mkdir: MkdirFault,
    tee: TeeFault,
    checkSha: bool,
    checkSize: bool)

  const NO_FAULTS := Faults(false, false, Unhindered, Undisturbed, false, false)

  /** A file stands where a directory is needed. */
  predicate Blocked(files: map<Location, Bytes>, dir: Location) {
    exists a :: a in Ancestors(dir) && a in files
  }

  function FileAt(t: Tree, loc: Location): Option<Bytes> {
    if loc in t.files then Some(t.files[loc]) else None
  }

  /** The file that a path leads to, if every place on its way is a directory. */
  function Found(t: Tree, path: string): Option<Bytes> {
    if Way(path) <= t.dirs then FileAt(t, Resolve(path)) else None
  }

  /** All that a restore can notice about its target: what is in it, whether a file stands in the
      way of the directories above it, and whether it can be opened once these exist. */
  datatype Target = Target(content: Option<Bytes>, blocked: bool, open: bool)

  predicate CanOpen(t: Tree, path: string) {
    Writable(path) && Resolve(path) !in t.dirs && Detours(path) <= t.dirs
  }

  function Look(t: Tree, path: string): Target {
    Target(if CanOpen(t, path) then FileAt(t, Resolve(path)) else None,
           Blocked(t.files, ParentOf(path)),
           CanOpen(t, path))
  }

  // ---------- the protocol, seen from its target ----------

  datatype RestoreError = ParentFailed | WriteFailed | NotVerifiable | ChecksumMismatch

  /** The new content of the target, if any, the directories made, whether a write was issued, and
      the outcome. */
  datatype Effect = Effect(put: Option<Bytes>, made: set<Location>, wrote: bool, error: Option<RestoreError>)

  function Seen(content: Option<Bytes>, unreadable: bool, hash: Hash): Option<FileInfo> {
    if unreadable || content.None? || |content.value| > MAX_INT then None
    else Some(InfoOf(content.value, hash))
  }

  function Created(dir: Location, fault: MkdirFault): set<Location> {
    match fault
    case Unhindered => Ancestors(dir)
    case Stopped(after) => Ancestors(if after <= |dir| then dir[..after] else dir)
  }

  /** What a write puts into the target, and what it reports. */
  function AfterTee(open: bool, data: Bytes, fault: TeeFault): (Option<Bytes>, bool) {
    match fault
    case Undisturbed => if open then (Some(data), true) else (None, false)
    case Disturbed(reported, residue) =>
      (if residue.Left? && open then Some(residue.content) else None, reported)
  }

  function Verdict(content: Option<Bytes>, unreadable: bool, data: Bytes, hash: Hash): Option<RestoreError> {
    match Seen(content, unreadable, hash)
    case None => Some(NotVerifiable)
    case Some(info) => if info == InfoOf(data, hash) then None else Some(ChecksumMismatch)
  }

  /** What a write that was issued comes to. */
  function Written(path: string, target: Target, data: Bytes, f: Faults, hash: Hash): Effect {
    var (put, reported) := AfterTee(target.open, data, f.tee);
    Effect(put, Ancestors(ParentOf(path)), true,
           if !reported then Some(WriteFailed)
           else Verdict(if put.Some? then put else target.content, f.checkSha || f.checkSize, data, hash))
  }

  function Protocol(path: string, target: Target, data: Bytes, f: Faults, hash: Hash): Effect {
    if data == [] || Seen(target.content, f.lookSha || f.lookSize, hash) == Some(InfoOf(data, hash)) then
      Effect(None, {}, false, None)
    else if target.blocked then
      Effect(None, {}, false, Some(ParentFailed))
    else if f.mkdir.Stopped? then
      Effect(None, Created(ParentOf(path), f.mkdir), false, Some(ParentFailed))
    else
      Written(path, target, data, f, hash)
  }

  /** An effect touches the target and makes directories, and nothing else. */
  function Apply(t: Tree, path: string, e: Effect): Tree {
    Tree(if e.put.Some? then t.files[Resolve(path) := e.put.value] else t.files, t.dirs + e.made)
  }

  lemma CreatedWithin(dir: Location, fault: MkdirFault)
    ensures Created(dir, fault) <= Ancestors(dir)
    ensures forall d | d in Created(dir, fault) :: d != [] && Ancestors(d) <= Created(dir, fault)
  {
    var reached := match fault
                   case Unhindered => dir
                   case Stopped(after) => if after <= |dir| then dir[..after] else dir;
    AncestorsMonotone(reached, dir);
    forall d | d in Created(dir, fault)
      ensures d != [] && Ancestors(d) <= Created(dir, fault)
    {
      AncestorsMonotone(d, reached);
    }
  }

  /** Making directories above a target that nothing blocks, and putting something into it once it
      can be opened, leaves a file system. */
  lemma ApplySound(t: Tree, path: string, e: Effect)
    requires Sound(t) && e.made <= Ancestors(ParentOf(path))
    requires forall d | d in e.made :: d != [] && Ancestors(d) <= e.made
    requires e.made != {} ==> !Blocked(t.files, ParentOf(path))
    requires e.put.Some? ==> CanOpen(t, path) && e.made == Ancestors(ParentOf(path))
    ensures Sound(Apply(t, path, e))
  {
    TargetBelow(path);
    AncestorsOf(Resolve(path), ParentOf(path));
    assert forall d | d in e.made :: d !in t.files;
  }

  /** What a restore leaves is again a file system. */
  lemma ProtocolSound(t: Tree, path: string, data: Bytes, f: Faults, hash: Hash)
    requires Sound(t)
    ensures var e := Protocol(path, Look(t, path), data, f, hash);
            && Sound(Apply(t, path, e))
            && e.made <= Ancestors(ParentOf(path))
            && (e.put.Some? ==> Writable(path) && CanOpen(t, path))
  {
    CreatedWithin(ParentOf(path), f.mkdir);
    CreatedWithin(ParentOf(path), Unhindered);
    ApplySound(t, path, Protocol(path, Look(t, path), data, f, hash));
  }

  // ---------- the same, on the remote ----------

  class Remote {
    const hash: Hash
    var files: map<Location, Bytes>
    var dirs: set<Location>
    var writes: seq<string>  // the paths for which a write was issued, in order

    function State(): Tree
      reads this
    {
      Tree(files, dirs)
    }

    ghost predicate Valid()
      reads this
    {
      Sound(State())
    }

    constructor (hash: Hash, fs: FileSystem)
      ensures this.hash == hash && State() == fs && writes == [] && Valid()
    {
      this.hash, this.files, this.dirs, this.writes := hash, fs.files, fs.dirs, [];
    }

    method Sha256Sum(path: RemotePath, fails: bool) returns (output: string, ok: bool)
      ensures ok <==> !fails && Found(State(), path).Some?
      ensures ok ==> output == ShaLine(hash(Found(State(), path).value), path)
    {
      var content := Found(State(), path);
      if !fails && content.Some? {
        return ShaLine(hash(content.value), path), true;
      }
      return "", false;
    }

    method Stat(path: RemotePath, fails: bool) returns (output: string, ok: bool)
      ensures ok <==> !fails && Found(State(), path).Some?
      ensures ok ==> output == SizeLine(|Found(State(), path).value|)
    {
      var content := Found(State(), path);
      if !fails && content.Some? {
        return SizeLine(|content.value|), true;
      }
      return "", false;
    }

    /** Makes the missing directories from the root down. A file in the way stops it where all
        directories exist already. */
    method MkdirAll(dir: Location, fault: MkdirFault) returns (ok: bool)
      requires Valid()
      modifies this`dirs
      ensures ok <==> fault.Unhindered? && !Blocked(files, dir)
      ensures dirs == if Blocked(files, dir) then old(dirs) else old(dirs) + Created(dir, fault)
    {
      var limit := match fault
                   case Unhindered => |dir|
                   case Stopped(after) => if after <= |dir| then after else |dir|;
      var i := 0;
      while i < limit && dir[..i + 1] !in files
        invariant 0 <= i <= limit
        invariant forall a | a in Ancestors(dir[..i]) :: a !in files
        invariant dirs == old(dirs) + Ancestors(dir[..i])
      {
        MadeOneMore(dir, i);
        dirs := dirs + {dir[..i + 1]};
        i := i + 1;
      }
      if i < limit {
        BlockedAt(files, old(dirs), dir, i);
        assert dirs == old(dirs);
        return false;
      }
      assert dir[..|dir|] == dir;
      if fault.Stopped? {
        if Blocked(files, dir) {
          BlockedBelow(files, old(dirs), dir, limit);
        }
        return false;
      }
      return true;
    }

    /** Runs the write command, on the file that it names. A clean write fails when a place on the
        way is missing or the target is a directory. */
    method Tee(script: string, fault: TeeFault) returns (ok: bool)
      requires TeeTarget(script).Some?
      modifies this`files, this`writes
      ensures writes == old(writes) + [TeeTarget(script).value]
      ensures var path := TeeTarget(script).value;
              var loc := Resolve(path);
              var open := Way(path) <= dirs && loc != [] && loc !in dirs;
              match fault
              case Undisturbed =>
                && (ok <==> open && Delivered(script).Some?)
                && files == if ok then old(files)[loc := Delivered(script).value] else old(files)
              case Disturbed(reported, residue) =>
                && ok == reported
                && files == if open && residue.Left? then old(files)[loc := residue.content] else old(files)
    {
      var path := TeeTarget(script).value;
      writes := writes + [path];
      var loc := Resolve(path);
      var open := Way(path) <= dirs && loc != [] && loc !in dirs;
      match fault {
        case Undisturbed =>
          var payload := Delivered(script);
          ok := open && payload.Some?;
          if ok {
            files := files[loc := payload.value];
          }
        case Disturbed(reported, residue) =>
          ok := reported;
          if open && residue.Left? {
            files := files[loc := residue.content];
          }
      }
    }
  }

  lemma MadeOneMore(dir: Location, i: nat)
    requires i < |dir|
    ensures Ancestors(dir[..i + 1]) == Ancestors(dir[..i]) + {dir[..i + 1]}
  {
    assert dir[..i + 1] == dir[..i] + [dir[i]];
    AncestorsSnoc(dir[..i], dir[i]);
  }

  /** All directories above a file that stands in the way exist. */
  lemma BlockedAt(files: map<Location, Bytes>, dirs: set<Location>, dir: Location, i: nat)
    requires Sound(Tree(files, dirs)) && i < |dir| && dir[..i + 1] in files
    ensures Ancestors(dir[..i]) <= dirs && Blocked(files, dir)
  {
    assert dir[..i + 1][..i] == dir[..i];
    AncestorsOf(dir[..i + 1], dir);
  }

  lemma BlockedBelow(files: map<Location, Bytes>, dirs: set<Location>, dir: Location, limit: nat)
    requires Sound(Tree(files, dirs)) && Blocked(files, dir) && limit <= |dir|
    requires forall a | a in Ancestors(dir[..limit]) :: a !in files
    ensures Ancestors(dir[..limit]) <= dirs
  {
    var a :| a in Ancestors(dir) && a in files;
    if |a| <= limit {
      AncestorsOf(a, dir[..limit]);
      assert false;
    }
    AncestorsMonotone(dir[..limit], a[..|a| - 1]);
  }

  method InspectRemoteFile(remote: Remote, path: RemotePath, shaFails: bool, sizeFails: bool)
    returns (info: Option<FileInfo>)
    ensures info == Seen(Found(remote.State(), path), shaFails || sizeFails, remote.hash)
  {
    var shaOut, shaOk := remote.Sha256Sum(path, shaFails);
    ghost var content := Found(remote.State(), path);
    if content.Some? {
      InspectionRecovers(remote.hash(content.value), path, |content.value|);
    }
    if !shaOk || TrimSpace(shaOut) == "" {
      if shaOk {
        InspectionRecovers(remote.hash(content.value), path, 0);
      }
      return None;
    }
    InspectionRecovers(remote.hash(content.value), path, 0);
    var fields := Fields(TrimSpace(shaOut));
    if |fields| == 0 {
      return None;
    }
    var sizeOut, sizeOk := remote.Stat(path, sizeFails);
    if !sizeOk || TrimSpace(sizeOut) == "" {
      return None;
    }
    var size := Atoi(TrimSpace(sizeOut));
    if size.None? {
      return None;
    }
    return Some(FileInfo(fields[0], size.value));
  }

  /** A file that is found is one that can be opened, and the other way round. */
  lemma FoundIs(t: Tree, path: string)
    requires Sound(t)
    ensures Found(t, path) == Look(t, path).content
  {
    TargetBelow(path);
  }

  /** Once the directories above it exist, a target can be opened just when Look says so. */
  lemma TargetOpen(t: Tree, path: string)
    ensures var dirs, loc := t.dirs + Ancestors(ParentOf(path)), Resolve(path);
            (Way(path) <= dirs && loc != [] && loc !in dirs) <==> CanOpen(t, path)
  {
    TargetBelow(path);
    AncestorsOf(Resolve(path), ParentOf(path));
  }

  lemma MadeLook(t: Tree, path: string)
    ensures var made := Tree(t.files, t.dirs + Ancestors(ParentOf(path)));
            Look(made, path) == Look(t, path)
  {
    TargetBelow(path);
    AncestorsOf(Resolve(path), ParentOf(path));
  }

  lemma PutLook(t: Tree, path: string, content: Bytes)
    requires CanOpen(t, path)
    ensures Look(Tree(t.files[Resolve(path) := content], t.dirs), path).content == Some(content)
  {
  }

  /** The second half of restoreBytesIfChanged, once the parent directory exists. */
  method WriteAndVerify(remote: Remote, path: RemotePath, data: Bytes, f: Faults, ghost before: Tree)
    returns (error: Option<RestoreError>)
    requires Sound(before) && !Blocked(before.files, ParentOf(path))
    requires remote.State() == Tree(before.files, before.dirs + Ancestors(ParentOf(path)))
    modifies remote`files, remote`writes
    ensures var e := Written(path, Look(before, path), data, f, remote.hash);
            remote.State() == Apply(before, path, e) && error == e.error
    ensures remote.writes == old(remote.writes) + [path]
  {
    TransferLossless(data, path);
    TeeTargetIs(data, path);
    TargetOpen(before, path);
    WrittenSound(before, path, data, f, remote.hash);
    MadeLook(before, path);
    ghost var made := remote.State();
    var written := remote.Tee(TeeScript(data, path), f.tee);
    ghost var e := Written(path, Look(before, path), data, f, remote.hash);
    assert remote.State() == Apply(before, path, e);
    if !written {
      return Some(WriteFailed);
    }
    FoundIs(remote.State(), path);
    if e.put.Some? {
      PutLook(made, path, e.put.value);
    }
    var verified := InspectRemoteFile(remote, path, f.checkSha, f.checkSize);
    if verified.None? {
      return Some(NotVerifiable);
    }
    if verified.value.sha != Hex(remote.hash(data)) || verified.value.size != |data| {
      return Some(ChecksumMismatch);
    }
    return None;
  }

  lemma WrittenSound(t: Tree, path: string, data: Bytes, f: Faults, hash: Hash)
    requires Sound(t) && !Blocked(t.files, ParentOf(path))
    ensures Sound(Apply(t, path, Written(path, Look(t, path), data, f, hash)))
  {
    CreatedWithin(ParentOf(path), Unhindered);
    ApplySound(t, path, Written(path, Look(t, path), data, f, hash));
  }

  /** restoreBytesIfChanged */
  method RestoreBytesIfChanged(remote: Remote, path: RemotePath, data: Bytes, f: Faults)
    returns (error: Option<RestoreError>)
    requires remote.Valid()
    modifies remote
    ensures remote.Valid()
    ensures var e := Protocol(path, Look(old(remote.State()), path), data, f, remote.hash);
            && remote.State() == Apply(old(remote.State()), path, e)
            && error == e.error
            && remote.writes == old(remote.writes) + if e.wrote then [path] else []
  {
    ghost var before := remote.State();
    ProtocolSound(before, path, data, f, remote.hash);
    FoundIs(before, path);
    if |data| == 0 {
      return None;
    }
    var localHash := Hex(remote.hash(data));
    var current := InspectRemoteFile(remote, path, f.lookSha, f.lookSize);
    if current.Some? && current.value.sha == localHash && current.value.size == |data| {
      return None;
    }
    var made := remote.MkdirAll(ParentOf(path), f.mkdir);
    if !made {
      return Some(ParentFailed);
    }
    error := WriteAndVerify(remote, path, data, f, before);
  }
}
