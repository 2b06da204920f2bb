/** Capture of the certificates on the source host (internal/extractor/certs.go:11-61) and their
    way to the target. */
module Certificates {
  import opened Wrappers
  import opened Text
  import opened Encoding
  import opened Paths
  import opened Restore
  import opened RestoreRuns
  import opened RestoreState
  import opened State

  const CERT_FILE := "cert.pem"
  const KEY_FILE := "privkey.pem"
  const CHAIN_FILE := "fullchain.pem"

  /** The path that is read for one file of a domain. */
  function SourcePath(domain: string, file: string): string {
    Under(Under(LIVE_DIR, domain), file)
  }

  /** The name under which it is captured. */
  function CaptureName(domain: string, file: string): string {
    Under(domain, file)
  }

  /** Which of the two attempts to read a path fail. */
  datatype ReadFaults = ReadFaults(plain: bool, sudo: bool)

  /** The source host. */
  class Source {
    const tree: FileSystem
    const faults: string -> ReadFaults

    constructor (tree: FileSystem, faults: string -> ReadFaults)
      ensures this.tree == tree && this.faults == faults
    {
      this.tree, this.faults := tree, faults;
    }

    method Cat(path: RemotePath, sudo: bool) returns (output: Bytes, ok: bool)
      ensures ok <==> Found(tree, path).Some? && !(if sudo then faults(path).sudo else faults(path).plain)
      ensures ok ==> Some(output) == Found(tree, path)
    {
      var content := Found(tree, path);
      ok := content.Some? && !(if sudo then faults(path).sudo else faults(path).plain);
      output := if ok then content.value else [];
    }
  }

  /** What reading a path yields: an empty file counts as unreadable. */
  function Readable(source: Source, path: string): Option<Bytes> {
    var content := Found(source.tree, path);
    if content != Some([]) && !(source.faults(path).plain && source.faults(path).sudo) then content else None
  }

  method ReadRemoteFile(source: Source, path: RemotePath) returns (content: Option<Bytes>)
    ensures content == Readable(source, path)
  {
    var output, ok := source.Cat(path, false);
    if ok && |output| > 0 {
      return Some(output);
    }
    output, ok := source.Cat(path, true);
    if ok && |output| > 0 {
      return Some(output);
    }
    return None;
  }

  predicate Skipped(domain: string) {
    domain == "" || domain == "." || domain == ".."
  }

  /** The files of one domain: those up to the first one that cannot be read. */
  function DomainCerts(source: Source, domain: string): map<string, Bytes> {
    if Skipped(domain) then map[]
    else
      UpToMissing(domain,
                  Readable(source, SourcePath(domain, CERT_FILE)),
                  Readable(source, SourcePath(domain, KEY_FILE)),
                  Readable(source, SourcePath(domain, CHAIN_FILE)))
  }

  function UpToMissing(domain: string, cert: Option<Bytes>, key: Option<Bytes>, chain: Option<Bytes>)
    : map<string, Bytes>
  {
    if cert.None? then map[]
    else if key.None? then map[CaptureName(domain, CERT_FILE) := cert.value]
    else if chain.None? then
      map[CaptureName(domain, CERT_FILE) := cert.value, CaptureName(domain, KEY_FILE) := key.value]
    else
      map[CaptureName(domain, CERT_FILE) := cert.value, CaptureName(domain, KEY_FILE) := key.value,
          CaptureName(domain, CHAIN_FILE) := chain.value]
  }

  function CertsOf(source: Source, domains: seq<string>): map<string, Bytes> {
    if domains == [] then map[]
    else CertsOf(source, domains[..|domains| - 1]) + DomainCerts(source, domains[|domains| - 1])
  }

  lemma CertsSnoc(source: Source, domains: seq<string>, i: nat)
    requires i < |domains|
    ensures CertsOf(source, domains[..i + 1]) == CertsOf(source, domains[..i]) + DomainCerts(source, domains[i])
  {
    assert domains[..i + 1][..i] == domains[..i];
  }

  lemma {:induction false} TrimWord(word: string)
    requires forall i | 0 <= i < |word| :: !IsSpace(word[i])
    ensures TrimSpace(word) == word
  {
  }

  lemma SourceWords(domain: string)
    requires ShellSafe(domain)
    ensures OneWord(SourcePath(domain, CERT_FILE))
    ensures OneWord(SourcePath(domain, KEY_FILE))
    ensures OneWord(SourcePath(domain, CHAIN_FILE))
  {
    DirsSafe();
    FileNames();
    ShellSafeUnder(LIVE_DIR, domain);
    ShellSafeUnder(Under(LIVE_DIR, domain), CERT_FILE);
    ShellSafeUnder(Under(LIVE_DIR, domain), KEY_FILE);
    ShellSafeUnder(Under(LIVE_DIR, domain), CHAIN_FILE);
  }

  /** One round of the loop in ExtractCertificates. */
  method ExtractDomain(source: Source, domain: string, certs: map<string, Bytes>)
    returns (grown: map<string, Bytes>)
    requires ShellSafe(domain)
    ensures grown == certs + DomainCerts(source, domain)
  {
    grown := certs;
    SourceWords(domain);
    if domain == "" || domain == "." || domain == ".." {
      return;
    }
    var a, b, c := CaptureName(domain, CERT_FILE), CaptureName(domain, KEY_FILE), CaptureName(domain, CHAIN_FILE);
    var cert := ReadRemoteFile(source, SourcePath(domain, CERT_FILE));
    if cert.None? {
      return;
    }
    grown := grown[a := cert.value];
    var key := ReadRemoteFile(source, SourcePath(domain, KEY_FILE));
    if key.None? {
      Added(certs, a, cert.value, b, [], c, []);
      return;
    }
    grown := grown[b := key.value];
    var chain := ReadRemoteFile(source, SourcePath(domain, CHAIN_FILE));
    if chain.None? {
      Added(certs, a, cert.value, b, key.value, c, []);
      return;
    }
    grown := grown[c := chain.value];
    Added(certs, a, cert.value, b, key.value, c, chain.value);
  }

  lemma Added(certs: map<string, Bytes>, a: string, x: Bytes, b: string, y: Bytes, c: string, z: Bytes)
    ensures certs[a := x] == certs + map[a := x]
    ensures certs[a := x][b := y] == certs + map[a := x, b := y]
    ensures certs[a := x][b := y][c := z] == certs + map[a := x, b := y, c := z]
  {
  }

  /** The listed names can stand in a command unquoted. */
  predicate SafeDomains(domains: seq<string>) {
    forall i | 0 <= i < |domains| :: ShellSafe(domains[i])
  }

  /** ExtractCertificates, given the output of the directory listing, if it succeeded. */
  method ExtractCertificates(source: Source, listing: Option<string>) returns (certs: map<string, Bytes>)
    requires listing.Some? ==> SafeDomains(Fields(listing.value))
    ensures certs == if listing.None? then map[] else CertsOf(source, Fields(listing.value))
  {
    certs := map[];
    if listing.None? || TrimSpace(listing.value) == "" {
      if listing.Some? {
        BlankFields(listing.value);
      }
      return;
    }
    var domains := Fields(listing.value);
    for i := 0 to |domains|
      invariant certs == CertsOf(source, domains[..i])
    {
      TrimWord(domains[i]);
      CertsSnoc(source, domains, i);
      certs := ExtractDomain(source, TrimSpace(domains[i]), certs);
    }
    assert domains[..|domains|] == domains;
  }

  // ---------- what is captured ----------

  const CERT_FILES: seq<string> := [CERT_FILE, KEY_FILE, CHAIN_FILE]

  lemma FileNames()
    ensures forall file | file in CERT_FILES :: Plain(file) && ShellSafe(file)
    ensures ShellSafe(CERT_FILE) && ShellSafe(KEY_FILE) && ShellSafe(CHAIN_FILE)
    ensures CERT_FILE != KEY_FILE && KEY_FILE != CHAIN_FILE && CERT_FILE != CHAIN_FILE
  {
    assert CERT_FILE[0] == 'c' && KEY_FILE[0] == 'p' && CHAIN_FILE[0] == 'f';
  }

  /** Domain and file can be told from the name, whatever slashes the domain has. */
  lemma CaptureNameInjective(d: string, f: string, e: string, g: string)
    requires '/' !in f && '/' !in g && CaptureName(d, f) == CaptureName(e, g)
    ensures d == e && f == g
  {
    var name := CaptureName(d, f);
    forall i | |d| < i < |name|
      ensures name[i] != '/'
    {
      assert name[i] == f[i - |d| - 1];
    }
    forall i | |e| < i < |name|
      ensures name[i] != '/'
    {
      assert name[i] == g[i - |e| - 1];
    }
    assert name[|d|] == '/' && name[|e|] == '/';
    assert d == name[..|d|] && e == name[..|e|];
    assert f == name[|d| + 1..] && g == name[|e| + 1..];
  }

  /** Whether a file of a domain is captured: it and the files before it can be read. */
  predicate Obtained(source: Source, domain: string, file: string) {
    && !Skipped(domain)
    && Readable(source, SourcePath(domain, CERT_FILE)).Some?
    && (file != CERT_FILE ==> Readable(source, SourcePath(domain, KEY_FILE)).Some?)
    && (file == CHAIN_FILE ==> Readable(source, SourcePath(domain, CHAIN_FILE)).Some?)
  }

  lemma DomainExact(source: Source, domain: string, other: string, file: string)
    requires file in CERT_FILES
    ensures var certs := DomainCerts(source, domain);
            && (CaptureName(other, file) in certs <==> other == domain && Obtained(source, domain, file))
            && (CaptureName(other, file) in certs ==>
                  Some(certs[CaptureName(other, file)]) == Readable(source, SourcePath(domain, file)))
  {
    UpToMissingExact(domain,
                     Readable(source, SourcePath(domain, CERT_FILE)),
                     Readable(source, SourcePath(domain, KEY_FILE)),
                     Readable(source, SourcePath(domain, CHAIN_FILE)), other, file);
  }

  lemma UpToMissingExact(domain: string, cert: Option<Bytes>, key: Option<Bytes>, chain: Option<Bytes>,
                         other: string, file: string)
    requires file in CERT_FILES
    ensures var certs := UpToMissing(domain, cert, key, chain);
            var wanted := if file == CERT_FILE then cert else if file == KEY_FILE then key else chain;
            && (CaptureName(other, file) in certs <==>
                && other == domain && cert.Some? && (file != CERT_FILE ==> key.Some?)
                && (file == CHAIN_FILE ==> chain.Some?))
            && (CaptureName(other, file) in certs ==> Some(certs[CaptureName(other, file)]) == wanted)
  {
    FileNames();
    forall f | f in CERT_FILES && CaptureName(domain, f) == CaptureName(other, file)
      ensures other == domain && f == file
    {
      CaptureNameInjective(domain, f, other, file);
    }
    assert CERT_FILE in CERT_FILES && KEY_FILE in CERT_FILES && CHAIN_FILE in CERT_FILES;
  }

  /** A file is captured exactly when its domain is listed and it and the files before it can be
      read; what is captured is the content of its source path. */
  lemma {:induction false} FileExact(source: Source, domains: seq<string>, domain: string, file: string)
    requires file in CERT_FILES
    ensures var certs := CertsOf(source, domains);
            && (CaptureName(domain, file) in certs <==> domain in domains && Obtained(source, domain, file))
            && (CaptureName(domain, file) in certs ==>
                  Some(certs[CaptureName(domain, file)]) == Readable(source, SourcePath(domain, file)))
  {
    if domains != [] {
      var last := |domains| - 1;
      FileExact(source, domains[..last], domain, file);
      DomainExact(source, domains[last], domain, file);
      assert domains == domains[..last] + [domains[last]];
    }
  }

  /** Nothing else is captured. */
  lemma {:induction false} CapturedName(source: Source, domains: seq<string>, name: string)
    requires name in CertsOf(source, domains)
    ensures exists domain, file :: domain in domains && file in CERT_FILES && name == CaptureName(domain, file)
                                   && !Skipped(domain)
  {
    var last := |domains| - 1;
    if name in DomainCerts(source, domains[last]) {
      var file := DomainOnly(source, domains[last], name);
    } else {
      CapturedName(source, domains[..last], name);
      var domain, file :| domain in domains[..last] && file in CERT_FILES && name == CaptureName(domain, file)
                          && !Skipped(domain);
      assert domain in domains;
    }
  }

  lemma DomainOnly(source: Source, domain: string, name: string) returns (file: string)
    requires name in DomainCerts(source, domain)
    ensures file in CERT_FILES && name == CaptureName(domain, file) && !Skipped(domain)
  {
    assert CERT_FILE in CERT_FILES && KEY_FILE in CERT_FILES && CHAIN_FILE in CERT_FILES;
    file := if name == CaptureName(domain, CERT_FILE) then CERT_FILE
            else if name == CaptureName(domain, KEY_FILE) then KEY_FILE else CHAIN_FILE;
  }

  /** The captured files of a domain are a prefix of certificate, private key and chain. */
  lemma CapturePrefix(source: Source, domains: seq<string>, domain: string)
    ensures var certs := CertsOf(source, domains);
            && (domain + "/fullchain.pem" in certs ==> domain + "/privkey.pem" in certs)
            && (domain + "/privkey.pem" in certs ==> domain + "/cert.pem" in certs)
  {
    CaptureExact(source, domains, domain);
  }

  // ---------- the same, in terms of the host ----------

  /** Reading a path on the host gives something: the file is there and not empty, and one of the
      two attempts, without and with sudo, works. */
  predicate CanRead(source: Source, path: string) {
    && Found(source.tree, path).Some? && Found(source.tree, path).value != []
    && !(source.faults(path).plain && source.faults(path).sudo)
  }

  /** A name is captured with the content of a path. */
  predicate Captured(certs: map<string, Bytes>, name: string, source: Source, path: string) {
    name in certs && Found(source.tree, path) == Some(certs[name])
  }

  /** Where a domain's files are read from, and restored to. */
  function LivePath(domain: string): string {
    "/etc/letsencrypt/live/" + domain
  }

  lemma FileSpelled(domain: string, file: string, suffix: string)
    requires suffix == ['/'] + file
    ensures CaptureName(domain, file) == domain + suffix
    ensures SourcePath(domain, file) == LivePath(domain) + suffix
  {
    LiveSpelled(domain);
    assert SourcePath(domain, file) == (LIVE_DIR + ['/'] + domain) + (['/'] + file);
  }

  lemma LiveSpelled(domain: string)
    ensures LivePath(domain) == LIVE_DIR + ['/'] + domain
  {
  }

  lemma FileCaptured(source: Source, domains: seq<string>, domain: string, file: string, suffix: string)
    requires suffix == ['/'] + file && file in CERT_FILES
    ensures var certs := CertsOf(source, domains);
            && (domain + suffix in certs <==> domain in domains && Obtained(source, domain, file))
            && (domain + suffix in certs ==> Captured(certs, domain + suffix, source, LivePath(domain) + suffix))
    ensures Readable(source, SourcePath(domain, file)).Some? <==> CanRead(source, LivePath(domain) + suffix)
  {
    FileSpelled(domain, file, suffix);
    FileExact(source, domains, domain, file);
  }

  lemma SuffixesSpelled()
    ensures "/cert.pem" == ['/'] + CERT_FILE
    ensures "/privkey.pem" == ['/'] + KEY_FILE
    ensures "/fullchain.pem" == ['/'] + CHAIN_FILE
    ensures CERT_FILE in CERT_FILES && KEY_FILE in CERT_FILES && CHAIN_FILE in CERT_FILES
  {
  }

  lemma CapturedBy(source: Source, domains: seq<string>, domain: string, a: string, b: string, c: string)
    requires a == ['/'] + CERT_FILE && b == ['/'] + KEY_FILE && c == ['/'] + CHAIN_FILE
    requires CERT_FILE in CERT_FILES && KEY_FILE in CERT_FILES && CHAIN_FILE in CERT_FILES
    ensures var certs, dir := CertsOf(source, domains), LivePath(domain);
            var cert := domain in domains && !Skipped(domain) && CanRead(source, dir + a);
            var key := cert && CanRead(source, dir + b);
            var chain := key && CanRead(source, dir + c);
            && (domain + a in certs <==> cert) && (domain + b in certs <==> key) && (domain + c in certs <==> chain)
            && (cert ==> Captured(certs, domain + a, source, dir + a))
            && (key ==> Captured(certs, domain + b, source, dir + b))
            && (chain ==> Captured(certs, domain + c, source, dir + c))
  {
    FileNames();
    FileCaptured(source, domains, domain, CERT_FILE, a);
    FileCaptured(source, domains, domain, KEY_FILE, b);
    FileCaptured(source, domains, domain, CHAIN_FILE, c);
  }

  /** For every domain that is listed and is not empty, a dot or a double dot: the certificate is
      captured if and only if it can be read, the key if and only if both can, and the chain if and
      only if all three can. Of any other domain nothing is captured. */
  lemma CaptureExact(source: Source, domains: seq<string>, domain: string)
    ensures var certs, dir := CertsOf(source, domains), LivePath(domain);
            var cert := && domain in domains && domain != "" && domain != "." && domain != ".."
                        && CanRead(source, dir + "/cert.pem");
            var key := cert && CanRead(source, dir + "/privkey.pem");
            var chain := key && CanRead(source, dir + "/fullchain.pem");
            && (domain + "/cert.pem" in certs <==> cert)
            && (domain + "/privkey.pem" in certs <==> key)
            && (domain + "/fullchain.pem" in certs <==> chain)
            && (cert ==> Captured(certs, domain + "/cert.pem", source, dir + "/cert.pem"))
            && (key ==> Captured(certs, domain + "/privkey.pem", source, dir + "/privkey.pem"))
            && (chain ==> Captured(certs, domain + "/fullchain.pem", source, dir + "/fullchain.pem"))
  {
    SuffixesSpelled();
    CapturedBy(source, domains, domain, "/cert.pem", "/privkey.pem", "/fullchain.pem");
  }

  lemma NameSpelled(source: Source, domains: seq<string>, name: string, a: string, b: string, c: string)
    returns (domain: string)
    requires name in CertsOf(source, domains)
    requires a == ['/'] + CERT_FILE && b == ['/'] + KEY_FILE && c == ['/'] + CHAIN_FILE
    ensures domain in domains && !Skipped(domain)
    ensures name == domain + a || name == domain + b || name == domain + c
  {
    CapturedName(source, domains, name);
    var file;
    domain, file :| domain in domains && file in CERT_FILES && name == CaptureName(domain, file) && !Skipped(domain);
    if file == CERT_FILE {
      FileSpelled(domain, file, a);
    } else if file == KEY_FILE {
      FileSpelled(domain, file, b);
    } else {
      FileSpelled(domain, file, c);
    }
  }

  /** Nothing else is captured. */
  lemma CaptureOnly(source: Source, domains: seq<string>, name: string) returns (domain: string)
    requires name in CertsOf(source, domains)
    ensures domain in domains && domain != "" && domain != "." && domain != ".."
    ensures name == domain + "/cert.pem" || name == domain + "/privkey.pem" || name == domain + "/fullchain.pem"
  {
    SuffixesSpelled();
    domain := NameSpelled(source, domains, name, "/cert.pem", "/privkey.pem", "/fullchain.pem");
  }

  // ---------- and where it arrives ----------

  /** A captured name goes back to exactly the path it was read from if and only if the domain
      has no slash; otherwise it has no restore path at all. */
  lemma SamePath(domain: string, file: string)
    requires file in CERT_FILES
    ensures CertificateRestorePath(CaptureName(domain, file)) == SourcePath(domain, file) <==> '/' !in domain
    ensures '/' in domain ==> CertificateRestorePath(CaptureName(domain, file)) == ""
  {
    FileNames();
    CertificatePathOf(domain, file);
  }

  lemma CaptureNameParts(domain: string, file: string)
    requires '/' !in domain && '/' !in file
    ensures Split(CaptureName(domain, file), '/') == [domain, file]
  {
    SplitConcat(domain, '/', file);
    SplitWhole(domain, '/');
    SplitWhole(file, '/');
  }

  /** Names that have a restore path at all come from domains without slashes, and are plain. */
  lemma CapturedPlain(source: Source, domains: seq<string>, name: string)
    requires SafeDomains(domains)
    requires name in CertsOf(source, domains) && CertificateRestorePath(name) != ""
    ensures ShellSafe(name) && Plain(Split(name, '/')[0]) && Plain(Split(name, '/')[1])
  {
    CapturedName(source, domains, name);
    var domain, file :| domain in domains && file in CERT_FILES && name == CaptureName(domain, file)
                        && !Skipped(domain);
    FileNames();
    SamePath(domain, file);
    CaptureNameParts(domain, file);
    ShellSafeUnder(domain, file);
  }

  lemma CapturedState(source: Source, domains: seq<string>, state: SystemState)
    requires SafeDomains(domains) && state.certificates == CertsOf(source, domains)
    requires forall name | name in state.databases :: Plain(name) && ShellSafe(name)
    ensures PlainNames(state)
  {
    forall name | name in state.certificates && CertificateRestorePath(name) != ""
      ensures ShellSafe(name) && Plain(Split(name, '/')[0]) && Plain(Split(name, '/')[1])
    {
      CapturedPlain(source, domains, name);
    }
  }

  /** A file of the source goes to the same path of the target: it is found there afterwards as it
      is on the source, under the conditions of Arrives. */
  predicate Moved(source: Source, before: FileSystem, after: FileSystem, path: string, plan: Plan, hash: Hash) {
    && Found(source.tree, path).Some?
    && Arrives(before, after, path, Found(source.tree, path).value, plan, hash)
  }

  /** Every file of a domain that is captured is moved: the certificate if it can be read, the key
      if both can, and the chain if all three can. */
  predicate DomainMoved(source: Source, domain: string, before: FileSystem, after: FileSystem, plan: Plan, hash: Hash) {
    var dir := LivePath(domain);
    CanRead(source, dir + "/cert.pem") ==>
      && Moved(source, before, after, dir + "/cert.pem", plan, hash)
      && (CanRead(source, dir + "/privkey.pem") ==>
            && Moved(source, before, after, dir + "/privkey.pem", plan, hash)
            && (CanRead(source, dir + "/fullchain.pem") ==>
                  Moved(source, before, after, dir + "/fullchain.pem", plan, hash)))
  }

  lemma FileMoved(source: Source, state: SystemState, fs: FileSystem, end: FileSystem,
                  domain: string, suffix: string, file: string, plan: Plan, hash: Hash)
    requires AllArrive(state, fs, end, plan, hash)
    requires '/' !in domain && '/' !in file && suffix == ['/'] + file
    requires Captured(state.certificates, domain + suffix, source, LivePath(domain) + suffix)
    ensures Moved(source, fs, end, LivePath(domain) + suffix, plan, hash)
  {
    var name := domain + suffix;
    assert name == CaptureName(domain, file);
    CaptureNameParts(domain, file);
    CertificateArrives(state, fs, end, name, plan, hash);
    LiveAppended(domain, suffix);
  }

  lemma CertificateArrives(state: SystemState, fs: FileSystem, end: FileSystem, name: string, plan: Plan, hash: Hash)
    requires AllArrive(state, fs, end, plan, hash) && name in state.certificates && |Split(name, '/')| == 2
    ensures Arrives(fs, end, LivePath(name), state.certificates[name], plan, hash)
  {
  }

  lemma LiveAppended(domain: string, suffix: string)
    ensures LivePath(domain + suffix) == LivePath(domain) + suffix
  {
    LiveSpelled(domain);
    LiveSpelled(domain + suffix);
    var root := LIVE_DIR + ['/'];
    assert root + (domain + suffix) == (root + domain) + suffix;
  }

  /** From host to host: the readable certificate files of a listed domain without a slash, whatever
      else is listed, end on the target with the bytes, and at the path, that they have on the
      source. */
  lemma CertificatesArrive(source: Source, domains: seq<string>, domain: string, state: SystemState,
                           fs: FileSystem, jobs: seq<Job>, plan: Plan, hash: Hash)
    requires SafeDomains(domains) && state.certificates == CertsOf(source, domains)
    requires forall name | name in state.databases :: Plain(name) && ShellSafe(name)
    requires ShellNames(state) && RunOrder(state, jobs)
    requires domain in domains && domain != "" && domain != "." && domain != ".." && '/' !in domain
    ensures DomainMoved(source, domain, fs, RunJobs(fs, jobs, plan, hash), plan, hash)
  {
    CapturedState(source, domains, state);
    FilesArrive(state, fs, jobs, plan, hash);
    DomainArrives(source, domains, domain, state, fs, RunJobs(fs, jobs, plan, hash), plan, hash);
  }

  lemma DomainArrives(source: Source, domains: seq<string>, domain: string, state: SystemState,
                      fs: FileSystem, end: FileSystem, plan: Plan, hash: Hash)
    requires state.certificates == CertsOf(source, domains) && AllArrive(state, fs, end, plan, hash)
    requires domain in domains && domain != "" && domain != "." && domain != ".." && '/' !in domain
    ensures DomainMoved(source, domain, fs, end, plan, hash)
  {
    var dir := LivePath(domain);
    CaptureExact(source, domains, domain);
    FileNames();
    SuffixesSpelled();
    if CanRead(source, dir + "/cert.pem") {
      FileMoved(source, state, fs, end, domain, "/cert.pem", CERT_FILE, plan, hash);
      if CanRead(source, dir + "/privkey.pem") {
        FileMoved(source, state, fs, end, domain, "/privkey.pem", KEY_FILE, plan, hash);
        if CanRead(source, dir + "/fullchain.pem") {
          FileMoved(source, state, fs, end, domain, "/fullchain.pem", CHAIN_FILE, plan, hash);
        }
      }
    }
  }

  /** Extraction followed by restoring, on the program itself: every readable certificate file of
      every listed domain without a slash arrives, in whatever order the maps are visited and
      whatever becomes of the other files. */
  method Migrate(source: Source, domains: seq<string>, others: SystemState, remote: Remote, plan: Plan)
    requires remote.Valid()
    requires forall i | 0 <= i < |domains| :: IsWord(domains[i])
    requires SafeDomains(domains)
    requires forall name | name in others.databases :: Plain(name) && ShellSafe(name)
    modifies remote
    ensures remote.Valid()
    ensures forall domain | domain in domains && domain != "." && domain != ".." && '/' !in domain ::
              DomainMoved(source, domain, old(remote.State()), remote.State(), plan, remote.hash)
  {
    ghost var start := remote.State();
    FieldsUnlines(domains);
    var certs := ExtractCertificates(source, Some(Unlines(domains)));
    var state := others.(certificates := certs);
    CapturedState(source, domains, state);
    ghost var jobs := RestoreSystemState(remote, state, plan);
    forall domain | domain in domains && domain != "." && domain != ".." && '/' !in domain
      ensures DomainMoved(source, domain, start, remote.State(), plan, remote.hash)
    {
      var i :| 0 <= i < |domains| && domains[i] == domain;
      assert IsWord(domains[i]);
      DomainArrives(source, domains, domain, state, start, remote.State(), plan, remote.hash);
    }
  }
}
