/** Where restored files go (internal/extractor/extractor.go:237-297). */
module Paths {
  import opened Text

  /** A place in the remote file system: the names from the root down. */
  type Location = seq<string>

  /** The location that a slash-separated path names. Empty and dot segments are dropped, and a
      double dot drops the segment before it. */
  function Walk(parts: seq<string>, from: Location): Location
    decreases |parts|
  {
    if parts == [] then from
    else if parts[0] == "" || parts[0] == "." then Walk(parts[1..], from)
    else if parts[0] == ".." then Walk(parts[1..], if from == [] then [] else from[..|from| - 1])
    else Walk(parts[1..], from + [parts[0]])
  }

  function Resolve(path: string): Location {
    Walk(Split(path, '/'), [])
  }

  /** filepath.Dir: the path up to its last slash, cleaned. */
  function ParentOf(path: string): Location {
    var parts := Split(path, '/');
    Walk(parts[..|parts| - 1], [])
  }

  /** A location other than the root, and those above it. */
  function Ancestors(dir: Location): set<Location> {
    set i | 0 < i <= |dir| :: dir[..i]
  }

  /** The places that the first n segments of a path lead through, the root left out. */
  function WayOf(parts: seq<string>, n: nat): set<Location>
    requires n <= |parts|
  {
    set i | 0 <= i <= n && Walk(parts[..i], []) != [] :: Walk(parts[..i], [])
  }

  /** The places that must be directories for a path to be followed, all of them: a double dot
      leaves a directory only after it was entered. */
  function Way(path: string): set<Location> {
    var parts := Split(path, '/');
    WayOf(parts, |parts| - 1)
  }

  /** The target is not a place on the way to itself, as the path of a directory is. */
  predicate Writable(path: string) {
    Resolve(path) != [] && Resolve(path) !in Way(path)
  }

  /** The places on the way that a path leaves again: they are not above the target. */
  function Detours(path: string): set<Location> {
    Way(path) - Ancestors(ParentOf(path))
  }

  /** A target that can be written and is reached without detours. */
  predicate Direct(path: string) {
    Writable(path) && Detours(path) == {}
  }

  /** The detours that no other one goes beyond. */
  function DeadEnds(path: string): set<Location> {
    set m | m in Detours(path) && forall e | e in Detours(path) && m <= e :: e == m
  }

  /** A name that denotes exactly one segment. */
  predicate Plain(name: string) {
    name != "" && name != "." && name != ".." && '/' !in name
  }

  // ---------- paths as words of a command ----------

  /** A character that an unquoted word cannot hold in its middle: one that a shell treats
      specially (section 2.2 of the POSIX Shell Command Language, IEEE Std 1003.1-2017), that
      sha256sum escapes, or that ends a string. */
  predicate Special(c: char) {
    || c == '|' || c == '&' || c == ';' || c == '<' || c == '>' || c == '(' || c == ')'
    || c == '$' || c == '`' || c == '\\' || c == '\"' || c == '\'' || c == ' ' || c == '\t'
    || c == '\n' || c == '\r' || c == '*' || c == '?' || c == '[' || c == '{' || c == '\0'
  }

  predicate ShellSafe(s: string) {
    forall i | 0 <= i < |s| :: !Special(s[i])
  }

  /** An absolute path that a shell takes as one word, naming the file it spells. The commands of
      a restore do not quote their paths, so only for these is it known what they do. */
  type RemotePath = s: string | OneWord(s) witness "/"

  predicate OneWord(s: string) {
    s != "" && s[0] == '/' && ShellSafe(s)
  }

  lemma ShellSafeUnder(dir: string, name: string)
    ensures ShellSafe(Under(dir, name)) <==> ShellSafe(dir) && ShellSafe(name)
  {
    var path := Under(dir, name);
    assert forall i | 0 <= i < |dir| :: path[i] == dir[i];
    assert forall i | 0 <= i < |name| :: path[|dir| + 1 + i] == name[i];
    assert path[|dir|] == '/';
  }

  // ---------- the three families of targets ----------

  /** A file in a directory. */
  function Under(dir: string, name: string): string {
    dir + ['/'] + name
  }

  const DATABASE_DIR := "/opt/3x-ui/db"
  const LIVE_DIR := "/etc/letsencrypt/live"
  const XRAY_DIR := "/etc/x-ui"

  function DatabasePath(name: string): string {
    Under(DATABASE_DIR, name)
  }

  /** The empty string when the name does not have exactly two segments. */
  function CertificateRestorePath(name: string): string {
    var parts := Split(name, '/');
    if |parts| != 2 then "" else Under(Under(LIVE_DIR, parts[0]), parts[1])
  }

  const XRAY_NAME := "xray.json"
  const XRAY_PATH := Under(XRAY_DIR, XRAY_NAME)

  lemma DirsSafe()
    ensures ShellSafe(DATABASE_DIR) && ShellSafe(LIVE_DIR)
  {
  }

  lemma XraySafe()
    ensures ShellSafe(XRAY_DIR) && ShellSafe(XRAY_NAME)
  {
  }

  /** What makes a name safe to put into a path of its family. */
  lemma DatabasePathWord(name: string)
    ensures OneWord(DatabasePath(name)) <==> ShellSafe(name)
  {
    DirsSafe();
    ShellSafeUnder(DATABASE_DIR, name);
  }

  lemma CertificatePathWord(name: string)
    requires CertificateRestorePath(name) != ""
    ensures OneWord(CertificateRestorePath(name)) <==> ShellSafe(name)
  {
    DirsSafe();
    TwoParts(name);
    var parts := Split(name, '/');
    ShellSafeUnder(parts[0], parts[1]);
    ShellSafeUnder(LIVE_DIR, parts[0]);
    ShellSafeUnder(Under(LIVE_DIR, parts[0]), parts[1]);
  }

  lemma XrayPathWord()
    ensures OneWord(XRAY_PATH)
  {
    XraySafe();
    ShellSafeUnder(XRAY_DIR, XRAY_NAME);
  }

  // ---------- resolving them ----------

  lemma {:induction false} WalkConcat(a: seq<string>, b: seq<string>, from: Location)
    ensures Walk(a + b, from) == Walk(b, Walk(a, from))
    decreases |a|
  {
    if a == [] {
      assert a + b == b;
    } else {
      assert (a + b)[1..] == a[1..] + b;
      WalkConcat(a[1..], b,
                 if a[0] == "" || a[0] == "." then from
                 else if a[0] == ".." then (if from == [] then [] else from[..|from| - 1])
                 else from + [a[0]]);
    }
  }

  // ---------- the way ----------

  function StepTo(part: string, from: Location): Location {
    if part == "" || part == "." then from
    else if part == ".." then if from == [] then [] else from[..|from| - 1]
    else from + [part]
  }

  lemma WalkSnoc(parts: seq<string>, i: nat)
    requires i < |parts|
    ensures Walk(parts[..i + 1], []) == StepTo(parts[i], Walk(parts[..i], []))
  {
    assert parts[..i + 1] == parts[..i] + [parts[i]];
    WalkConcat(parts[..i], [parts[i]], []);
    assert [parts[i]][1..] == [];
  }

  lemma WayOfSnoc(parts: seq<string>, n: nat)
    requires n < |parts|
    ensures var last := Walk(parts[..n + 1], []);
            WayOf(parts, n + 1) == WayOf(parts, n) + if last == [] then {} else {last}
  {
  }

  lemma AncestorsOf(loc: Location, dir: Location)
    ensures loc in Ancestors(dir) <==> loc != [] && loc <= dir
  {
    if loc != [] && loc <= dir {
      assert dir[..|loc|] == loc;
    }
  }

  lemma AncestorsSnoc(dir: Location, name: string)
    ensures Ancestors(dir + [name]) == Ancestors(dir) + {dir + [name]}
  {
    forall loc
      ensures loc in Ancestors(dir + [name]) <==> loc in Ancestors(dir) || loc == dir + [name]
    {
      AncestorsOf(loc, dir);
      AncestorsOf(loc, dir + [name]);
      if loc <= dir + [name] && !(loc <= dir) {
        assert |loc| == |dir| + 1;
      }
    }
  }

  lemma AncestorsMonotone(a: Location, b: Location)
    requires a <= b
    ensures Ancestors(a) <= Ancestors(b)
  {
    forall loc | loc in Ancestors(a)
      ensures loc in Ancestors(b)
    {
      AncestorsOf(loc, a);
      AncestorsOf(loc, b);
    }
  }

  /** A walk enters a directory from the one above it: the way holds whatever is above its places. */
  lemma {:induction false} WayOfClosed(parts: seq<string>, n: nat)
    requires n <= |parts|
    ensures forall i | 0 <= i <= n :: Ancestors(Walk(parts[..i], [])) <= WayOf(parts, n)
  {
    if n == 0 {
      assert parts[..0] == [];
    } else {
      WayOfClosed(parts, n - 1);
      WayOfSnoc(parts, n - 1);
      WalkSnoc(parts, n - 1);
      var from := Walk(parts[..n - 1], []);
      var last := Walk(parts[..n], []);
      if last == from + [parts[n - 1]] {
        AncestorsSnoc(from, parts[n - 1]);
      } else {
        AncestorsMonotone(last, from);
      }
    }
  }

  lemma WayClosed(path: string, loc: Location)
    requires loc in Way(path)
    ensures loc != [] && Ancestors(loc) <= Way(path)
  {
    var parts := Split(path, '/');
    WayOfClosed(parts, |parts| - 1);
  }

  lemma WholeWayClosed(path: string)
    ensures forall loc | loc in Way(path) :: loc != [] && Ancestors(loc) <= Way(path)
  {
    forall loc | loc in Way(path)
      ensures loc != [] && Ancestors(loc) <= Way(path)
    {
      WayClosed(path, loc);
    }
  }

  /** The parent is on the way; a target that can be written is a name below it. */
  lemma TargetBelow(path: string)
    ensures Ancestors(ParentOf(path)) <= Way(path)
    ensures Writable(path) ==> var loc, dir := Resolve(path), ParentOf(path);
            loc[..|loc| - 1] == dir && !(loc <= dir)
  {
    var parts := Split(path, '/');
    var n := |parts| - 1;
    WayOfClosed(parts, n);
    WalkSnoc(parts, n);
    assert parts[..n + 1] == parts;
    var dir, loc := ParentOf(path), Resolve(path);
    if Writable(path) && loc <= dir {
      AncestorsOf(loc, dir);
    }
  }

  function Beyond(path: string, d: Location): set<Location> {
    set e | e in Detours(path) && d <= e
  }

  /** A detour ends somewhere. */
  lemma DeadEndBeyond(path: string, d: Location) returns (m: Location)
    requires d in Detours(path)
    ensures m in DeadEnds(path) && d <= m
    decreases Beyond(path, d)
  {
    if e :| e in Detours(path) && d <= e && e != d {
      assert Beyond(path, e) < Beyond(path, d) by {
        assert d in Beyond(path, d) && d !in Beyond(path, e);
      }
      m := DeadEndBeyond(path, e);
    } else {
      m := d;
    }
  }

  /** A path without detours. */
  predicate Straight(dir: string) {
    Way(dir) <= Ancestors(Resolve(dir))
  }

  lemma WayUnder(dir: string, name: string)
    requires '/' !in name
    ensures Way(Under(dir, name)) == Way(dir) + if Resolve(dir) == [] then {} else {Resolve(dir)}
    ensures ParentOf(Under(dir, name)) == Resolve(dir)
  {
    SplitConcat(dir, '/', name);
    SplitWhole(name, '/');
    var parts := Split(dir, '/');
    var longer := Split(Under(dir, name), '/');
    assert longer == parts + [name];
    forall i | 0 <= i < |longer|
      ensures longer[..i] == parts[..i]
    {
    }
    assert longer[..|parts|] == parts[..|parts|] == parts;
    assert forall i | 0 <= i <= |parts| :: Walk(longer[..i], []) == Walk(parts[..i], []);
    WayOfSnoc(parts, |parts| - 1);
    assert WayOf(longer, |parts|) == WayOf(parts, |parts|);
  }

  /** Below a straight path nothing but the directories above a target must be passed. */
  lemma StraightUnder(dir: string, name: string)
    requires Straight(dir) && '/' !in name
    ensures Detours(Under(dir, name)) == {}
    ensures Plain(name) ==> Straight(Under(dir, name)) && Writable(Under(dir, name))
  {
    WayUnder(dir, name);
    AncestorsOf(Resolve(dir), Resolve(dir));
    if Plain(name) {
      ResolveUnder(dir, name);
      AncestorsSnoc(Resolve(dir), name);
      AncestorsOf(Resolve(dir) + [name], Resolve(dir));
    }
  }

  lemma StraightRoot()
    ensures Straight("")
  {
    SplitWhole("", '/');
    assert forall i | 0 <= i <= 0 :: Walk([""][..i], []) == [];
  }

  lemma WalkPlain(name: string, from: Location)
    requires Plain(name)
    ensures Walk([name], from) == from + [name]
  {
    assert [name][1..] == [];
  }

  /** Appending a plain segment to a path. */
  lemma ResolveUnder(dir: string, name: string)
    requires Plain(name)
    ensures Resolve(Under(dir, name)) == Resolve(dir) + [name]
    ensures ParentOf(Under(dir, name)) == Resolve(dir)
  {
    SplitConcat(dir, '/', name);
    SplitWhole(name, '/');
    var parts := Split(dir, '/');
    WalkConcat(parts, [name], []);
    WalkPlain(name, Resolve(dir));
    assert (parts + [name])[..|parts + [name]| - 1] == parts;
  }

  lemma ResolveEmpty()
    ensures Resolve("") == []
  {
    SplitWhole("", '/');
  }

  lemma ResolveTwo(a: string, b: string)
    requires Plain(a) && Plain(b)
    ensures Resolve(Under(Under("", a), b)) == [a, b] && Straight(Under(Under("", a), b))
  {
    ResolveEmpty();
    StraightRoot();
    StraightUnder("", a);
    StraightUnder(Under("", a), b);
    ResolveUnder("", a);
    ResolveUnder(Under("", a), b);
  }

  lemma ResolveThree(a: string, b: string, c: string)
    requires Plain(a) && Plain(b) && Plain(c)
    ensures Resolve(Under(Under(Under("", a), b), c)) == [a, b, c]
    ensures Straight(Under(Under(Under("", a), b), c))
  {
    ResolveTwo(a, b);
    ResolveUnder(Under(Under("", a), b), c);
    StraightUnder(Under(Under("", a), b), c);
  }

  lemma DatabaseRoot()
    ensures Resolve(DATABASE_DIR) == ["opt", "3x-ui", "db"] && Straight(DATABASE_DIR)
  {
    ResolveThree("opt", "3x-ui", "db");
    assert Under(Under(Under("", "opt"), "3x-ui"), "db") == DATABASE_DIR;
  }

  lemma LiveRoot()
    ensures Resolve(LIVE_DIR) == ["etc", "letsencrypt", "live"] && Straight(LIVE_DIR)
  {
    ResolveThree("etc", "letsencrypt", "live");
    assert Under(Under(Under("", "etc"), "letsencrypt"), "live") == LIVE_DIR;
  }

  lemma XrayRoot()
    ensures Resolve(XRAY_DIR) == ["etc", "x-ui"] && Straight(XRAY_DIR)
  {
    ResolveTwo("etc", "x-ui");
    assert Under(Under("", "etc"), "x-ui") == XRAY_DIR;
  }

  lemma DatabaseLocation(name: string)
    requires Plain(name)
    ensures Resolve(DatabasePath(name)) == ["opt", "3x-ui", "db", name]
    ensures ParentOf(DatabasePath(name)) == ["opt", "3x-ui", "db"]
    ensures Direct(DatabasePath(name))
  {
    DatabaseRoot();
    StraightUnder(DATABASE_DIR, name);
    ResolveUnder(DATABASE_DIR, name);
  }

  lemma XrayNamePlain()
    ensures Plain(XRAY_NAME)
  {
  }

  lemma XrayLocation()
    ensures Resolve(XRAY_PATH) == ["etc", "x-ui"] + [XRAY_NAME]
    ensures ParentOf(XRAY_PATH) == ["etc", "x-ui"]
    ensures Direct(XRAY_PATH)
  {
    XrayRoot();
    XrayNamePlain();
    StraightUnder(XRAY_DIR, XRAY_NAME);
    ResolveUnder(XRAY_DIR, XRAY_NAME);
  }

  /** A certificate name is accepted exactly when it has one slash. */
  lemma CertificatePathOf(domain: string, file: string)
    requires '/' !in file
    ensures CertificateRestorePath(Under(domain, file))
         == if '/' in domain then "" else Under(Under(LIVE_DIR, domain), file)
  {
    SplitConcat(domain, '/', file);
    SplitWhole(file, '/');
    if '/' !in domain {
      SplitWhole(domain, '/');
    } else {
      var i := IndexOf(domain, '/');
      assert Split(domain, '/') == [domain[..i]] + Split(domain[i + 1..], '/');
    }
  }

  lemma ResolveNested(dir: string, loc: Location, a: string, b: string)
    requires Plain(a) && Plain(b) && Resolve(dir) == loc && Straight(dir)
    ensures Resolve(Under(Under(dir, a), b)) == loc + [a, b]
    ensures ParentOf(Under(Under(dir, a), b)) == loc + [a]
    ensures Direct(Under(Under(dir, a), b))
  {
    StraightUnder(dir, a);
    StraightUnder(Under(dir, a), b);
    ResolveUnder(dir, a);
    ResolveUnder(Under(dir, a), b);
  }

  lemma CertificateLocation(domain: string, file: string)
    requires Plain(domain) && Plain(file)
    ensures var path := CertificateRestorePath(Under(domain, file));
            && path == Under(Under(LIVE_DIR, domain), file) && path != ""
            && Resolve(path) == ["etc", "letsencrypt", "live"] + [domain, file]
            && ParentOf(path) == ["etc", "letsencrypt", "live"] + [domain]
            && Direct(path)
  {
    CertificatePathOf(domain, file);
    LiveRoot();
    ResolveNested(LIVE_DIR, ["etc", "letsencrypt", "live"], domain, file);
  }

  lemma TwoParts(name: string)
    requires |Split(name, '/')| == 2
    ensures name == Under(Split(name, '/')[0], Split(name, '/')[1])
    ensures '/' !in Split(name, '/')[0] && '/' !in Split(name, '/')[1]
  {
    var i := IndexOf(name, '/');
    assert Split(name, '/') == [name[..i]] + Split(name[i + 1..], '/');
    assert Split(name[i + 1..], '/') == [name[i + 1..]];
    SplitPartsFree(name, '/');
    assert name == Under(name[..i], name[i + 1..]);
  }

  /** The path determines the name: no two accepted names share a target path. */
  lemma CertificatePathInjective(a: string, b: string)
    requires CertificateRestorePath(a) != "" && CertificateRestorePath(a) == CertificateRestorePath(b)
    ensures a == b
  {
    TwoParts(a);
    TwoParts(b);
    UnderNested(LIVE_DIR, Split(a, '/')[0], Split(a, '/')[1]);
    UnderNested(LIVE_DIR, Split(b, '/')[0], Split(b, '/')[1]);
    UnderInjective(LIVE_DIR, a, b);
  }

  lemma UnderNested(dir: string, a: string, b: string)
    ensures Under(Under(dir, a), b) == Under(dir, Under(a, b))
  {
  }

  lemma UnderInjective(dir: string, a: string, b: string)
    requires Under(dir, a) == Under(dir, b)
    ensures a == b
  {
    assert a == Under(dir, a)[|dir| + 1..];
    assert b == Under(dir, b)[|dir| + 1..];
  }

  /** A dot segment is a second spelling of the same place. */
  lemma ResolveDot(dir: string, name: string)
    requires Plain(name) && Straight(dir)
    ensures Resolve(Under(dir, Under(".", name))) == Resolve(Under(dir, name))
    ensures ParentOf(Under(dir, Under(".", name))) == ParentOf(Under(dir, name))
    ensures Direct(Under(dir, Under(".", name))) && Direct(Under(dir, name))
  {
    UnderNested(dir, ".", name);
    ResolveUnder(Under(dir, "."), name);
    ResolveUnder(dir, name);
    SplitConcat(dir, '/', ".");
    SplitWhole(".", '/');
    WalkConcat(Split(dir, '/'), ["."], []);
    assert ["."][1..] == [];
    WayUnder(dir, ".");
    AncestorsOf(Resolve(dir), Resolve(dir));
    StraightUnder(dir, name);
    StraightUnder(Under(dir, "."), name);
  }

  /** A double dot leaves a directory that must have been entered: it is a dead end. */
  lemma ResolveUp(dir: string, name: string)
    requires Straight(dir) && Resolve(dir) != [] && Plain(name) && name != Resolve(dir)[|Resolve(dir)| - 1]
    ensures var path, at := Under(dir, Under("..", name)), Resolve(dir);
            Resolve(path) == at[..|at| - 1] + [name] && Writable(path) && at in DeadEnds(path)
  {
    var at, up := Resolve(dir), Under(dir, "..");
    var path := Under(up, name);
    UnderNested(dir, "..", name);
    SplitConcat(dir, '/', "..");
    SplitWhole("..", '/');
    WalkConcat(Split(dir, '/'), [".."], []);
    assert [".."][1..] == [];
    ResolveUnder(up, name);
    WayUnder(dir, "..");
    WayUnder(up, name);
    AncestorsOf(at, at[..|at| - 1]);
    assert forall d | d in Way(path) :: d <= at;
  }
}
