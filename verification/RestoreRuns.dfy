/** Restoring many files, in any order and any number of times
    (internal/extractor/extractor.go:237-271). */
module RestoreRuns {
  import opened Wrappers
  import opened Text
  import opened Encoding
  import opened Paths
  import opened Restore
  import opened Sequences

  /** One file to restore. */
  datatype Job = Job(path: RemotePath, data: Bytes)

  /** The failures of one run, which may differ from file to file and from run to run. */
  type Plan = string -> Faults

  function EffectOf(fs: Tree, job: Job, plan: Plan, hash: Hash): Effect {
    Protocol(job.path, Look(fs, job.path), job.data, plan(job.path), hash)
  }

  function Restored(fs: FileSystem, job: Job, plan: Plan, hash: Hash): FileSystem {
    ProtocolSound(fs, job.path, job.data, plan(job.path), hash);
    Apply(fs, job.path, EffectOf(fs, job, plan, hash))
  }

  function RunJobs(fs: FileSystem, jobs: seq<Job>, plan: Plan, hash: Hash): FileSystem
    decreases |jobs|
  {
    if jobs == [] then fs else RunJobs(Restored(fs, jobs[0], plan, hash), jobs[1..], plan, hash)
  }

  /** The paths to which a run issues a write, in order. */
  function Writes(fs: FileSystem, jobs: seq<Job>, plan: Plan, hash: Hash): seq<string>
    decreases |jobs|
  {
    if jobs == [] then []
    else (if EffectOf(fs, jobs[0], plan, hash).wrote then [jobs[0].path] else [])
         + Writes(Restored(fs, jobs[0], plan, hash), jobs[1..], plan, hash)
  }

  // ---------- a single restore ----------

  /** The remote reports the payload's digest and size for the target. */
  predicate Holds(fs: FileSystem, job: Job, hash: Hash) {
    Seen(Found(fs, job.path), false, hash) == Some(InfoOf(job.data, hash))
  }

  /** What Look says after an effect on the target itself. */
  function After(target: Target, e: Effect): Target {
    target.(content := if e.put.Some? then e.put else target.content)
  }

  lemma OwnLook(fs: FileSystem, job: Job, plan: Plan, hash: Hash)
    ensures Look(Restored(fs, job, plan, hash), job.path)
         == After(Look(fs, job.path), EffectOf(fs, job, plan, hash))
  {
    var loc, dir := Resolve(job.path), ParentOf(job.path);
    ProtocolSound(fs, job.path, job.data, plan(job.path), hash);
    TargetBelow(job.path);
    AncestorsOf(loc, dir);
    var end := Restored(fs, job, plan, hash);
    assert forall a | a in Ancestors(dir) :: a in end.files <==> a in fs.files;
  }

  /** Success means that digest and size are right; nothing but the target has changed, and only
      directories above it were made; and a target that was right already is left alone. */
  lemma SingleRestore(fs: FileSystem, job: Job, plan: Plan, hash: Hash)
    ensures var e, end := EffectOf(fs, job, plan, hash), Restored(fs, job, plan, hash);
            && (e.error.None? && job.data != [] ==> Holds(end, job, hash))
            && (forall loc | loc != Resolve(job.path) :: FileAt(end, loc) == FileAt(fs, loc))
            && fs.dirs <= end.dirs <= fs.dirs + Ancestors(ParentOf(job.path))
            && (!e.wrote ==> end.files == fs.files)
            && (e.error.None? && !e.wrote ==> end == fs)
            && (Holds(fs, job, hash) && Inspects(plan, job) ==> end == fs && !e.wrote && e.error.None?)
  {
    FoundIs(fs, job.path);
    FoundIs(Restored(fs, job, plan, hash), job.path);
    OwnLook(fs, job, plan, hash);
    ProtocolSound(fs, job.path, job.data, plan(job.path), hash);
  }

  // ---------- independent targets ----------

  /** Restoring a can make no difference to b: if a can be written at all, it neither lies on the
      way to b nor shares the file of b, and the directories above it complete no detour that b
      takes. */
  predicate Spares(a: Job, b: Job) {
    && (Writable(a.path) ==> !(Resolve(a.path) <= ParentOf(b.path)))
    && (Writable(a.path) && Writable(b.path) ==> Resolve(a.path) != Resolve(b.path))
    && (Writable(b.path) ==> forall m | m in DeadEnds(b.path) :: !(m <= ParentOf(a.path)))
  }

  predicate Apart(a: Job, b: Job) {
    Spares(a, b) && Spares(b, a)
  }

  predicate Independent(a: Job, b: Job) {
    a.path != b.path && Apart(a, b)
  }

  /** The i-th job is independent of all others, which may be at odds with each other. */
  predicate Isolated(jobs: seq<Job>, i: nat)
    requires i < |jobs|
  {
    forall j | 0 <= j < |jobs| && j != i :: Independent(jobs[j], jobs[i])
  }

  /** The job occurs in the run, once, and is independent of all others. */
  predicate OnItsOwn(jobs: seq<Job>, job: Job) {
    exists i | 0 <= i < |jobs| :: jobs[i] == job && Isolated(jobs, i)
  }

  predicate AllIndependent(jobs: seq<Job>) {
    forall i | 0 <= i < |jobs| :: Isolated(jobs, i)
  }

  /** No directory above a completes the detours of b. */
  lemma DetoursKept(fs: FileSystem, a: Job, b: Job, made: set<Location>)
    requires Spares(a, b) && Writable(b.path) && made <= Ancestors(ParentOf(a.path))
    ensures Detours(b.path) <= fs.dirs + made <==> Detours(b.path) <= fs.dirs
  {
    if Detours(b.path) <= fs.dirs + made && !(Detours(b.path) <= fs.dirs) {
      var d :| d in Detours(b.path) && d !in fs.dirs;
      var m := DeadEndBeyond(b.path, d);
      assert m in Detours(b.path);
      WayClosed(b.path, d);
      AncestorsOf(d, m);
      assert d in Ancestors(m);
      assert m !in fs.dirs;
      AncestorsOf(m, ParentOf(a.path));
    }
  }

  /** Restoring one file changes nothing that the restore of another one can notice. */
  lemma LookFrame(fs: FileSystem, a: Job, b: Job, plan: Plan, hash: Hash)
    requires Apart(a, b)
    ensures Look(Restored(fs, a, plan, hash), b.path) == Look(fs, b.path)
  {
    var end := Restored(fs, a, plan, hash);
    var e := EffectOf(fs, a, plan, hash);
    ProtocolSound(fs, a.path, a.data, plan(a.path), hash);
    var loc, dir := Resolve(b.path), ParentOf(b.path);
    AncestorsOf(Resolve(a.path), dir);
    AncestorsOf(loc, ParentOf(a.path));
    assert forall x | x in Ancestors(dir) :: x in end.files <==> x in fs.files;
    if Writable(b.path) {
      DetoursKept(fs, a, b, e.made);
      assert CanOpen(end, b.path) == CanOpen(fs, b.path);
    }
  }

  lemma {:induction false} RunFrame(fs: FileSystem, jobs: seq<Job>, b: Job, plan: Plan, hash: Hash)
    requires forall i | 0 <= i < |jobs| :: Apart(jobs[i], b)
    ensures Look(RunJobs(fs, jobs, plan, hash), b.path) == Look(fs, b.path)
    decreases |jobs|
  {
    if jobs != [] {
      LookFrame(fs, jobs[0], b, plan, hash);
      RunFrame(Restored(fs, jobs[0], plan, hash), jobs[1..], b, plan, hash);
    }
  }

  lemma FirstFrame(fs: FileSystem, jobs: seq<Job>, plan: Plan, hash: Hash)
    requires jobs != [] && Isolated(jobs, 0)
    ensures Look(RunJobs(fs, jobs[1..], plan, hash), jobs[0].path) == Look(fs, jobs[0].path)
  {
    forall j | 0 <= j < |jobs[1..]|
      ensures Apart(jobs[1..][j], jobs[0])
    {
      assert Independent(jobs[j + 1], jobs[0]);
    }
    RunFrame(fs, jobs[1..], jobs[0], plan, hash);
  }

  lemma IsolatedTail(jobs: seq<Job>, i: nat)
    requires 0 < i < |jobs| && Isolated(jobs, i)
    ensures Isolated(jobs[1..], i - 1)
  {
    forall j | 0 <= j < |jobs[1..]| && j != i - 1
      ensures Independent(jobs[1..][j], jobs[1..][i - 1])
    {
      assert Independent(jobs[j + 1], jobs[i]);
    }
  }

  /** A file that is independent of the others ends as if it had been restored alone, however
      those interfere with each other. */
  lemma {:induction false} RunPointwise(fs: FileSystem, jobs: seq<Job>, i: nat, plan: Plan, hash: Hash)
    requires i < |jobs| && Isolated(jobs, i)
    ensures Look(RunJobs(fs, jobs, plan, hash), jobs[i].path)
         == Look(Restored(fs, jobs[i], plan, hash), jobs[i].path)
    decreases |jobs|
  {
    var next := Restored(fs, jobs[0], plan, hash);
    if i == 0 {
      FirstFrame(next, jobs, plan, hash);
    } else {
      LookFrame(fs, jobs[0], jobs[i], plan, hash);
      IsolatedTail(jobs, i);
      RunPointwise(next, jobs[1..], i - 1, plan, hash);
      SameLook(fs, next, jobs[i], plan, hash);
    }
  }

  lemma SameLook(x: FileSystem, y: FileSystem, job: Job, plan: Plan, hash: Hash)
    requires Look(x, job.path) == Look(y, job.path)
    ensures Look(Restored(x, job, plan, hash), job.path) == Look(Restored(y, job, plan, hash), job.path)
  {
    OwnLook(x, job, plan, hash);
    OwnLook(y, job, plan, hash);
  }

  ghost predicate MadeBy(fs: FileSystem, jobs: seq<Job>, dir: Location, plan: Plan, hash: Hash) {
    exists job :: job in jobs && dir in EffectOf(fs, job, plan, hash).made
  }

  /** The directories after a run are those before it and those that some file, restored alone,
      makes. */
  lemma {:induction false} RunDirs(fs: FileSystem, jobs: seq<Job>, dir: Location, plan: Plan, hash: Hash)
    requires AllIndependent(jobs)
    ensures dir in RunJobs(fs, jobs, plan, hash).dirs <==> dir in fs.dirs || MadeBy(fs, jobs, dir, plan, hash)
    decreases |jobs|
  {
    if jobs != [] {
      var first, others := jobs[0], jobs[1..];
      var next := Restored(fs, first, plan, hash);
      forall i | 0 <= i < |others|
        ensures Isolated(others, i) && Independent(first, others[i])
      {
        assert Isolated(jobs, i + 1);
        IsolatedTail(jobs, i + 1);
      }
      RunDirs(next, others, dir, plan, hash);
      forall job | job in others
        ensures EffectOf(next, job, plan, hash) == EffectOf(fs, job, plan, hash)
      {
        LookFrame(fs, first, job, plan, hash);
      }
      MadeBySplit(fs, next, jobs, dir, plan, hash);
    }
  }

  lemma MadeBySplit(fs: FileSystem, next: FileSystem, jobs: seq<Job>, dir: Location, plan: Plan, hash: Hash)
    requires jobs != []
    requires forall job | job in jobs[1..] :: EffectOf(next, job, plan, hash) == EffectOf(fs, job, plan, hash)
    ensures MadeBy(fs, jobs, dir, plan, hash) <==>
              dir in EffectOf(fs, jobs[0], plan, hash).made || MadeBy(next, jobs[1..], dir, plan, hash)
  {
    assert forall job :: job in jobs <==> job == jobs[0] || job in jobs[1..];
  }

  // ---------- confluence ----------

  /** Two jobs whose order does not matter: the same job, one with nothing to write, or two that
      spare each other. */
  predicate Compatible(a: Job, b: Job) {
    a == b || a.data == [] || b.data == [] || Apart(a, b)
  }

  predicate AllCompatible(jobs: seq<Job>) {
    forall a, b | a in jobs && b in jobs :: Compatible(a, b)
  }

  predicate DistinctPaths(jobs: seq<Job>) {
    forall i, j | 0 <= i < j < |jobs| :: jobs[i].path != jobs[j].path
  }

  /** Two compatible jobs may change places. */
  lemma Commute(fs: FileSystem, a: Job, b: Job, plan: Plan, hash: Hash)
    requires Compatible(a, b)
    ensures Restored(Restored(fs, a, plan, hash), b, plan, hash)
         == Restored(Restored(fs, b, plan, hash), a, plan, hash)
  {
    if a != b && a.data != [] && b.data != [] {
      LookFrame(fs, a, b, plan, hash);
      LookFrame(fs, b, a, plan, hash);
      ProtocolSound(fs, a.path, a.data, plan(a.path), hash);
      ProtocolSound(fs, b.path, b.data, plan(b.path), hash);
      ApplyTwice(fs, a.path, b.path, EffectOf(fs, a, plan, hash), EffectOf(fs, b, plan, hash));
    } else {
      NothingToWrite(fs, a, plan, hash);
      NothingToWrite(fs, b, plan, hash);
      NothingToWrite(Restored(fs, b, plan, hash), a, plan, hash);
      NothingToWrite(Restored(fs, a, plan, hash), b, plan, hash);
    }
  }

  lemma NothingToWrite(fs: FileSystem, job: Job, plan: Plan, hash: Hash)
    ensures job.data == [] ==> Restored(fs, job, plan, hash) == fs
  {
  }

  lemma ApplyTwice(fs: Tree, a: string, b: string, ea: Effect, eb: Effect)
    requires ea.put.Some? && eb.put.Some? ==> Resolve(a) != Resolve(b)
    ensures Apply(Apply(fs, a, ea), b, eb) == Apply(Apply(fs, b, eb), a, ea)
  {
    var x := Apply(Apply(fs, a, ea), b, eb);
    var y := Apply(Apply(fs, b, eb), a, ea);
    assert x.files == y.files;
    assert x.dirs == y.dirs;
  }

  lemma {:induction false} MoveFront(fs: FileSystem, front: seq<Job>, job: Job, back: seq<Job>, plan: Plan, hash: Hash)
    requires forall i | 0 <= i < |front| :: Compatible(front[i], job)
    ensures RunJobs(fs, front + [job] + back, plan, hash)
         == RunJobs(Restored(fs, job, plan, hash), front + back, plan, hash)
    decreases |front|
  {
    var jobs := front + [job] + back;
    if front == [] {
      assert jobs[0] == job && jobs[1..] == back == front + back;
    } else {
      assert jobs[0] == front[0] && jobs[1..] == front[1..] + [job] + back;
      assert (front + back)[0] == front[0] && (front + back)[1..] == front[1..] + back;
      Commute(fs, front[0], job, plan, hash);
      MoveFront(Restored(fs, front[0], plan, hash), front[1..], job, back, plan, hash);
    }
  }

  lemma MoveToFront(fs: FileSystem, order: seq<Job>, k: nat, plan: Plan, hash: Hash)
    requires k < |order|
    requires forall i | 0 <= i < k :: Compatible(order[i], order[k])
    ensures RunJobs(fs, order, plan, hash) == RunJobs(Restored(fs, order[k], plan, hash), Drop(order, k), plan, hash)
  {
    DropFrom(order, k);
    MoveFront(fs, order[..k], order[k], order[k + 1..], plan, hash);
    Reassembled(order, k);
  }

  lemma CompatibleWith(a: seq<Job>, b: seq<Job>)
    requires AllCompatible(a) && a != [] && multiset(a) == multiset(b)
    ensures a[0] in b && AllCompatible(a[1..])
    ensures forall i | 0 <= i < |b| :: Compatible(b[i], a[0])
  {
    assert forall job :: job in a <==> job in multiset(a);
    assert forall job :: job in b <==> job in multiset(b);
  }

  /** Compatible jobs lead to the same file system in every order. */
  lemma {:induction false} Confluent(fs: FileSystem, a: seq<Job>, b: seq<Job>, plan: Plan, hash: Hash)
    requires AllCompatible(a) && multiset(a) == multiset(b)
    ensures RunJobs(fs, a, plan, hash) == RunJobs(fs, b, plan, hash)
    decreases |a|
  {
    if a == [] {
      assert |multiset(a)| == |multiset(b)| == |b|;
    } else {
      CompatibleWith(a, b);
      var k :| 0 <= k < |b| && b[k] == a[0];
      MoveToFront(fs, b, k, plan, hash);
      SameAfterDrop(a, b, k);
      Confluent(Restored(fs, a[0], plan, hash), a[1..], Drop(b, k), plan, hash);
    }
  }

  // ---------- and when it fails ----------

  /** Failures under which only the files of two paths are touched: their writes are disturbed and
      leave different contents, and all others stop before their first directory. */
  function Clash(x: string, y: string): Plan {
    path =>
      if path == x then Faults(true, false, Unhindered, Disturbed(false, Left([0])), false, false)
      else if path == y then Faults(true, false, Unhindered, Disturbed(false, Left([1])), false, false)
      else Faults(false, false, Stopped(0), Undisturbed, false, false)
  }

  /** One of the two jobs. */
  lemma ClashStep(fs: FileSystem, job: Job, x: string, y: string, hash: Hash)
    requires job.data != [] && (job.path == x || job.path == y)
    ensures var target := Look(fs, job.path);
            Restored(fs, job, Clash(x, y), hash) ==
              if target.blocked then fs
              else Tree(if !target.open then fs.files
                        else fs.files[Resolve(job.path) := if job.path == x then [0] else [1]],
                        fs.dirs + Ancestors(ParentOf(job.path)))
  {
  }

  lemma ClashIdle(fs: FileSystem, other: Job, x: string, y: string, hash: Hash)
    requires other.path != x && other.path != y
    ensures Restored(fs, other, Clash(x, y), hash) == fs
  {
    assert Created(ParentOf(other.path), Stopped(0)) == {};
  }

  lemma {:induction false} ClashOthers(fs: FileSystem, others: seq<Job>, x: string, y: string, hash: Hash)
    requires forall i | 0 <= i < |others| :: others[i].path != x && others[i].path != y
    ensures RunJobs(fs, others, Clash(x, y), hash) == fs
    decreases |others|
  {
    if others != [] {
      ClashIdle(fs, others[0], x, y, hash);
      ClashOthers(fs, others[1..], x, y, hash);
    }
  }

  ghost predicate ClashFrom(fs: FileSystem, a: Job, b: Job, hash: Hash) {
    var plan := Clash(a.path, b.path);
    Restored(Restored(fs, a, plan, hash), b, plan, hash) != Restored(Restored(fs, b, plan, hash), a, plan, hash)
  }

  /** A file on the way to another one: the second one's directories, if they come first, are in
      its place. */
  lemma ClashOnWay(a: Job, b: Job, hash: Hash) returns (fs: FileSystem)
    requires a.path != b.path && a.data != [] && b.data != []
    requires Writable(a.path) && Resolve(a.path) <= ParentOf(b.path)
    ensures ClashFrom(fs, a, b, hash)
  {
    var x, y := a.path, b.path;
    var loc := Resolve(x);
    WholeWayClosed(x);
    WaySound(Way(x));
    fs := Tree(map[], Way(x));
    var plan := Clash(x, y);
    var fa, fb := Restored(fs, a, plan, hash), Restored(fs, b, plan, hash);
    ClashStep(fs, a, x, y, hash);
    ClashStep(fs, b, x, y, hash);
    ClashStep(fa, b, x, y, hash);
    ClashStep(fb, a, x, y, hash);
    assert Look(fs, x).open && !Look(fs, x).blocked && !Look(fs, y).blocked;
    AncestorsOf(loc, ParentOf(y));
    assert loc in fa.files && loc in Restored(fa, b, plan, hash).files;
    assert loc in fb.dirs && loc !in fb.files;
    assert loc !in Restored(fb, a, plan, hash).files;
  }

  /** Two paths to one file: the last one wins. */
  lemma ClashOnFile(a: Job, b: Job, hash: Hash) returns (fs: FileSystem)
    requires a.path != b.path && a.data != [] && b.data != []
    requires Writable(a.path) && Writable(b.path) && Resolve(a.path) == Resolve(b.path)
    ensures ClashFrom(fs, a, b, hash)
  {
    var x, y := a.path, b.path;
    var loc := Resolve(x);
    WholeWayClosed(x);
    WholeWayClosed(y);
    WaySound(Way(x) + Way(y));
    fs := Tree(map[], Way(x) + Way(y));
    var plan := Clash(x, y);
    var fa, fb := Restored(fs, a, plan, hash), Restored(fs, b, plan, hash);
    ClashStep(fs, a, x, y, hash);
    ClashStep(fs, b, x, y, hash);
    ClashStep(fa, b, x, y, hash);
    ClashStep(fb, a, x, y, hash);
    TargetBelow(x);
    TargetBelow(y);
    AncestorsOf(loc, ParentOf(x));
    AncestorsOf(loc, ParentOf(y));
    assert Look(fs, x).open && Look(fs, y).open;
    assert Look(fa, y).open && !Look(fa, y).blocked && Look(fb, x).open && !Look(fb, x).blocked;
    assert Restored(fa, b, plan, hash).files[loc] == [1];
    assert Restored(fb, a, plan, hash).files[loc] == [0];
  }

  /** A directory that a detour of the second file is missing is made for the first one. */
  lemma ClashOnDetour(a: Job, b: Job, m: Location, hash: Hash) returns (fs: FileSystem)
    requires a.path != b.path && a.data != [] && b.data != []
    requires Writable(b.path) && m in DeadEnds(b.path) && m <= ParentOf(a.path)
    requires Writable(a.path) ==> !(Resolve(a.path) <= ParentOf(b.path)) && Resolve(a.path) != Resolve(b.path)
    requires !(Resolve(b.path) <= ParentOf(a.path))
    ensures ClashFrom(fs, a, b, hash)
  {
    var x, y := a.path, b.path;
    var loc := Resolve(y);
    DeadEndLeaf(y, m);
    WaySound(Way(y) - {m});
    fs := Tree(map[], Way(y) - {m});
    var plan := Clash(x, y);
    var fa, fb := Restored(fs, a, plan, hash), Restored(fs, b, plan, hash);
    ClashStep(fs, a, x, y, hash);
    ClashStep(fs, b, x, y, hash);
    ClashStep(fa, b, x, y, hash);
    ClashStep(fb, a, x, y, hash);
    AncestorsOf(m, ParentOf(x));
    AncestorsOf(loc, ParentOf(x));
    AncestorsOf(Resolve(x), ParentOf(y));
    assert !Look(fs, y).open && !Look(fs, x).blocked && fb.files == map[];
    assert loc !in Restored(fb, a, plan, hash).files;
    assert Look(fa, y).open && !Look(fa, y).blocked;
    assert loc in Restored(fa, b, plan, hash).files;
  }

  lemma WaySound(dirs: set<Location>)
    requires forall d | d in dirs :: d != [] && Ancestors(d) <= dirs
    ensures Sound(Tree(map[], dirs))
  {
  }

  /** Nothing on the way lies beyond a dead end. */
  lemma DeadEndLeaf(path: string, m: Location)
    requires m in DeadEnds(path)
    ensures forall d | d in Way(path) - {m} :: d != [] && Ancestors(d) <= Way(path) - {m}
  {
    forall d | d in Way(path) - {m}
      ensures d != [] && Ancestors(d) <= Way(path) - {m}
    {
      WayClosed(path, d);
      AncestorsOf(m, d);
      if m <= d && d !in Detours(path) {
        AncestorsOf(d, ParentOf(path));
        AncestorsOf(m, ParentOf(path));
      }
    }
  }

  /** Two jobs that do not spare each other. */
  lemma ClashPair(a: Job, b: Job, hash: Hash) returns (fs: FileSystem)
    requires a.path != b.path && a.data != [] && b.data != [] && !Spares(a, b)
    ensures ClashFrom(fs, a, b, hash) || ClashFrom(fs, b, a, hash)
  {
    if Writable(a.path) && Resolve(a.path) <= ParentOf(b.path) {
      fs := ClashOnWay(a, b, hash);
    } else if Writable(b.path) && Resolve(b.path) <= ParentOf(a.path) {
      fs := ClashOnWay(b, a, hash);
    } else if Writable(a.path) && Writable(b.path) && Resolve(a.path) == Resolve(b.path) {
      fs := ClashOnFile(a, b, hash);
    } else {
      var m :| m in DeadEnds(b.path) && m <= ParentOf(a.path);
      fs := ClashOnDetour(a, b, m, hash);
    }
  }

  /** The other jobs of a list with distinct paths. */
  lemma PairOff(jobs: seq<Job>, i: nat, j: nat) returns (others: seq<Job>)
    requires i < |jobs| && j < |jobs| && i != j && DistinctPaths(jobs)
    ensures multiset([jobs[i], jobs[j]] + others) == multiset(jobs)
    ensures multiset([jobs[j], jobs[i]] + others) == multiset(jobs)
    ensures forall k | 0 <= k < |others| :: others[k].path != jobs[i].path && others[k].path != jobs[j].path
  {
    var k := if j < i then j else j - 1;
    var rest := Drop(jobs, i);
    DropFrom(jobs, i);
    DropDistinct(jobs, i);
    DropDistinct(rest, k);
    DropPair(jobs, i, k);
    others := Drop(rest, k);
    forall l | 0 <= l < |others|
      ensures others[l].path != jobs[i].path && others[l].path != jobs[j].path
    {
      DropFrom(rest, k);
      assert others[l] in others && others[l] in rest;
    }
  }

  lemma DropDistinct(jobs: seq<Job>, k: nat)
    requires k < |jobs| && DistinctPaths(jobs)
    ensures DistinctPaths(Drop(jobs, k))
    ensures forall job | job in Drop(jobs, k) :: job.path != jobs[k].path
  {
    DropFrom(jobs, k);
  }

  lemma {:induction false} RunConcat(fs: FileSystem, a: seq<Job>, b: seq<Job>, plan: Plan, hash: Hash)
    ensures RunJobs(fs, a + b, plan, hash) == RunJobs(RunJobs(fs, a, plan, hash), b, plan, hash)
    decreases |a|
  {
    if a == [] {
      assert a + b == b;
    } else {
      assert (a + b)[1..] == a[1..] + b;
      RunConcat(Restored(fs, a[0], plan, hash), a[1..], b, plan, hash);
    }
  }

  lemma RunTwo(fs: FileSystem, a: Job, b: Job, others: seq<Job>, plan: Plan, hash: Hash)
    ensures RunJobs(fs, [a, b] + others, plan, hash)
         == RunJobs(Restored(Restored(fs, a, plan, hash), b, plan, hash), others, plan, hash)
  {
    assert ([a, b] + others)[1..] == [b] + others && ([b] + others)[1..] == others;
  }

  /** The two jobs in the midst of others that the failures keep from doing anything. */
  lemma ClashRun(fs: FileSystem, before: seq<Job>, a: Job, b: Job, others: seq<Job>, after: seq<Job>,
                 x: string, y: string, hash: Hash)
    requires forall k | 0 <= k < |before| :: before[k].path != x && before[k].path != y
    requires forall k | 0 <= k < |others| :: others[k].path != x && others[k].path != y
    requires forall k | 0 <= k < |after| :: after[k].path != x && after[k].path != y
    ensures var plan := Clash(x, y);
            RunJobs(fs, before + ([a, b] + others) + after, plan, hash)
            == Restored(Restored(fs, a, plan, hash), b, plan, hash)
  {
    var plan := Clash(x, y);
    var group := [a, b] + others;
    var end := Restored(Restored(fs, a, plan, hash), b, plan, hash);
    RunConcat(fs, before + group, after, plan, hash);
    RunConcat(fs, before, group, plan, hash);
    RunTwo(fs, a, b, others, plan, hash);
    ClashOthers(fs, before, x, y, hash);
    ClashOthers(end, others, x, y, hash);
    ClashOthers(end, after, x, y, hash);
  }

  /** Two jobs of one group that do not spare each other are enough: between fixed groups before
      and after it, two orders of the group end differently from some file system under some
      failures. */
  lemma OrderMatters(before: seq<Job>, group: seq<Job>, after: seq<Job>, i: nat, j: nat, hash: Hash)
    returns (fs: FileSystem, plan: Plan, one: seq<Job>, two: seq<Job>)
    requires DistinctPaths(before + group + after) && i < |group| && j < |group| && i != j
    requires group[i].data != [] && group[j].data != [] && !Spares(group[i], group[j])
    ensures multiset(one) == multiset(group) == multiset(two)
    ensures RunJobs(fs, before + one + after, plan, hash) != RunJobs(fs, before + two + after, plan, hash)
  {
    GroupDistinct(before, group, after);
    var others := PairOff(group, i, j);
    fs := ClashPair(group[i], group[j], hash);
    if ClashFrom(fs, group[i], group[j], hash) {
      plan, one, two := ClashOrders(fs, before, group[i], group[j], others, after, hash);
    } else {
      plan, one, two := ClashOrders(fs, before, group[j], group[i], others, after, hash);
    }
  }

  lemma GroupDistinct(before: seq<Job>, group: seq<Job>, after: seq<Job>)
    requires DistinctPaths(before + group + after)
    ensures DistinctPaths(group)
    ensures forall k, l | 0 <= k < |before| && 0 <= l < |group| :: before[k].path != group[l].path
    ensures forall k, l | 0 <= k < |after| && 0 <= l < |group| :: after[k].path != group[l].path
  {
    var all := before + group + after;
    assert forall l | 0 <= l < |group| :: all[|before| + l] == group[l];
    assert forall k | 0 <= k < |before| :: all[k] == before[k];
    assert forall k | 0 <= k < |after| :: all[|before| + |group| + k] == after[k];
  }

  lemma ClashOrders(fs: FileSystem, before: seq<Job>, a: Job, b: Job, others: seq<Job>, after: seq<Job>, hash: Hash)
    returns (plan: Plan, one: seq<Job>, two: seq<Job>)
    requires ClashFrom(fs, a, b, hash)
    requires forall k | 0 <= k < |before| :: before[k].path != a.path && before[k].path != b.path
    requires forall k | 0 <= k < |others| :: others[k].path != a.path && others[k].path != b.path
    requires forall k | 0 <= k < |after| :: after[k].path != a.path && after[k].path != b.path
    ensures one == [a, b] + others && two == [b, a] + others
    ensures RunJobs(fs, before + one + after, plan, hash) != RunJobs(fs, before + two + after, plan, hash)
  {
    plan, one, two := Clash(a.path, b.path), [a, b] + others, [b, a] + others;
    ClashRun(fs, before, a, b, others, after, a.path, b.path, hash);
    ClashRun(fs, before, b, a, others, after, a.path, b.path, hash);
  }

  /** With failures that depend only on the path, every order of the jobs leads to the same file
      system, whatever the file system and the failures. */
  ghost predicate OrderIrrelevant(jobs: seq<Job>, hash: Hash) {
    forall fs, plan, order | multiset(order) == multiset(jobs) ::
      RunJobs(fs, order, plan, hash) == RunJobs(fs, jobs, plan, hash)
  }

  /** The order of a list of jobs does not matter exactly when they are pairwise compatible, which
      can be told from their paths. */
  lemma ConfluentExactly(jobs: seq<Job>, hash: Hash)
    requires DistinctPaths(jobs)
    ensures OrderIrrelevant(jobs, hash) <==> AllCompatible(jobs)
  {
    if AllCompatible(jobs) {
      forall fs, plan, order | multiset(order) == multiset(jobs)
        ensures RunJobs(fs, order, plan, hash) == RunJobs(fs, jobs, plan, hash)
      {
        Confluent(fs, jobs, order, plan, hash);
      }
    } else {
      SomeOrderMatters(jobs, hash);
    }
  }

  lemma SomeOrderMatters(jobs: seq<Job>, hash: Hash)
    requires DistinctPaths(jobs) && !AllCompatible(jobs)
    ensures !OrderIrrelevant(jobs, hash)
  {
    var i, j := Incompatible(jobs);
    NoNeighbours(jobs);
    var fs, plan, one, two := OrderMatters([], jobs, [], i, j, hash);
    NoNeighbours(one);
    NoNeighbours(two);
    TwoOrders(fs, jobs, one, two, plan, hash);
  }

  lemma NoNeighbours(jobs: seq<Job>)
    ensures [] + jobs + [] == jobs
  {
  }

  lemma Incompatible(jobs: seq<Job>) returns (i: nat, j: nat)
    requires !AllCompatible(jobs)
    ensures i < |jobs| && j < |jobs| && i != j
    ensures jobs[i].data != [] && jobs[j].data != [] && !Spares(jobs[i], jobs[j])
  {
    var a, b :| a in jobs && b in jobs && !Compatible(a, b);
    i :| 0 <= i < |jobs| && jobs[i] == a;
    j :| 0 <= j < |jobs| && jobs[j] == b;
    if Spares(a, b) {
      i, j := j, i;
    }
  }

  lemma TwoOrders(fs: FileSystem, jobs: seq<Job>, one: seq<Job>, two: seq<Job>, plan: Plan, hash: Hash)
    requires multiset(one) == multiset(jobs) == multiset(two)
    requires RunJobs(fs, one, plan, hash) != RunJobs(fs, two, plan, hash)
    ensures !OrderIrrelevant(jobs, hash)
  {
  }

  /** Even without failures: when two payloads with different digests or sizes share a target, the
      order decides which one is left. */
  lemma SharedTargetOrderMatters(fs: FileSystem, a: Job, b: Job, plan: Plan, hash: Hash)
    requires Resolve(a.path) == Resolve(b.path) && ParentOf(a.path) == ParentOf(b.path)
    requires Open(fs, a) && Open(fs, b)
    requires a.data != [] && b.data != [] && |a.data| <= MAX_INT && |b.data| <= MAX_INT
    requires plan(a.path) == NO_FAULTS && plan(b.path) == NO_FAULTS
    requires InfoOf(a.data, hash) != InfoOf(b.data, hash)
    ensures RunJobs(fs, [a, b], plan, hash) != RunJobs(fs, [b, a], plan, hash)
  {
    LastWins(fs, a, b, plan, hash);
    LastWins(fs, b, a, plan, hash);
    var x, y := RunJobs(fs, [a, b], plan, hash), RunJobs(fs, [b, a], plan, hash);
    FoundIs(x, a.path);
    FoundIs(x, b.path);
    FoundIs(y, a.path);
    FoundIs(y, b.path);
  }

  lemma LastWins(fs: FileSystem, a: Job, b: Job, plan: Plan, hash: Hash)
    requires Resolve(a.path) == Resolve(b.path) && ParentOf(a.path) == ParentOf(b.path)
    requires Open(fs, a) && Open(fs, b) && a.data != [] && b.data != [] && |b.data| <= MAX_INT
    requires plan(b.path) == NO_FAULTS
    ensures Holds(RunJobs(fs, [a, b], plan, hash), b, hash)
  {
    var middle := Restored(fs, a, plan, hash);
    StaysOpen(fs, a, b, plan, hash);
    FailureFree(middle, b, plan, hash);
    RunTwo(fs, a, b, [], plan, hash);
    assert [a, b] + [] == [a, b];
  }

  // ---------- progress over repeated runs ----------

  /** No file stands in the way of the directories above the target, and once these exist it can be
      opened. */
  predicate Open(fs: FileSystem, job: Job) {
    !Look(fs, job.path).blocked && Look(fs, job.path).open
  }

  lemma StaysOpen(fs: FileSystem, a: Job, b: Job, plan: Plan, hash: Hash)
    requires Resolve(a.path) == Resolve(b.path) && ParentOf(a.path) == ParentOf(b.path)
    requires Open(fs, b)
    ensures Open(Restored(fs, a, plan, hash), b)
  {
    ProtocolSound(fs, a.path, a.data, plan(a.path), hash);
    var end := Restored(fs, a, plan, hash);
    TargetBelow(b.path);
    AncestorsOf(Resolve(b.path), ParentOf(b.path));
    assert forall x | x in Ancestors(ParentOf(b.path)) :: x in end.files <==> x in fs.files;
  }

  /** The inspection of an existing file works. */
  predicate Inspects(plan: Plan, job: Job) {
    !plan(job.path).lookSha && !plan(job.path).lookSize
  }

  /** No step that changes the remote fails. */
  predicate Delivers(plan: Plan, job: Job) {
    plan(job.path).mkdir.Unhindered? && plan(job.path).tee == Undisturbed
  }

  /** Without failures a payload arrives exactly when it is there already or its target is open. */
  lemma FailureFree(fs: FileSystem, job: Job, plan: Plan, hash: Hash)
    requires job.data != [] && |job.data| <= MAX_INT && Delivers(plan, job)
    ensures Holds(Restored(fs, job, plan, hash), job, hash) <==> Holds(fs, job, hash) || Open(fs, job)
  {
    FoundIs(fs, job.path);
    FoundIs(Restored(fs, job, plan, hash), job.path);
    OwnLook(fs, job, plan, hash);
  }

  /** And the restore says so: when its own checks can be made as well, it is a success. */
  lemma FailureFreeSucceeds(fs: FileSystem, job: Job, plan: Plan, hash: Hash)
    requires job.data != [] && |job.data| <= MAX_INT && Delivers(plan, job) && Open(fs, job)
    requires !plan(job.path).checkSha && !plan(job.path).checkSize
    ensures EffectOf(fs, job, plan, hash).error == None
    ensures !(Holds(fs, job, hash) && Inspects(plan, job)) ==>
              Found(Restored(fs, job, plan, hash), job.path) == Some(job.data)
  {
    FoundIs(fs, job.path);
    FoundIs(Restored(fs, job, plan, hash), job.path);
    OwnLook(fs, job, plan, hash);
  }

  /** What each error means. */
  lemma ErrorsMean(fs: FileSystem, job: Job, plan: Plan, hash: Hash)
    ensures var e, end := EffectOf(fs, job, plan, hash), Restored(fs, job, plan, hash);
            var f := plan(job.path);
            && (e.error == Some(ParentFailed) ==> !e.wrote && end.files == fs.files
                                                  && (f.mkdir.Stopped? || Blocked(fs.files, ParentOf(job.path))))
            && (e.error == Some(WriteFailed) ==> e.wrote && (f.tee.Disturbed? || !Open(fs, job)))
            && (e.error == Some(NotVerifiable) ==>
                  e.wrote && (f.checkSha || f.checkSize || Seen(Found(end, job.path), false, hash) == None))
            && (e.error == Some(ChecksumMismatch) ==> e.wrote && !Holds(end, job, hash))
  {
    FoundIs(Restored(fs, job, plan, hash), job.path);
    OwnLook(fs, job, plan, hash);
  }

  lemma {:induction false} WritesPointwise(fs: FileSystem, jobs: seq<Job>, i: nat, plan: Plan, hash: Hash)
    requires i < |jobs| && Isolated(jobs, i)
    ensures jobs[i].path in Writes(fs, jobs, plan, hash) <==> EffectOf(fs, jobs[i], plan, hash).wrote
    decreases |jobs|
  {
    var next := Restored(fs, jobs[0], plan, hash);
    if i == 0 {
      WritesOnly(next, jobs[1..], jobs[0].path, plan, hash);
    } else {
      LookFrame(fs, jobs[0], jobs[i], plan, hash);
      IsolatedTail(jobs, i);
      WritesPointwise(next, jobs[1..], i - 1, plan, hash);
    }
  }

  lemma {:induction false} WritesOnly(fs: FileSystem, jobs: seq<Job>, path: string, plan: Plan, hash: Hash)
    requires forall i | 0 <= i < |jobs| :: jobs[i].path != path
    ensures path !in Writes(fs, jobs, plan, hash)
    decreases |jobs|
  {
    if jobs != [] {
      WritesOnly(Restored(fs, jobs[0], plan, hash), jobs[1..], path, plan, hash);
    }
  }

  /** A target that holds its payload is not written again, and keeps its content. */
  lemma NotRewritten(fs: FileSystem, jobs: seq<Job>, job: Job, plan: Plan, hash: Hash)
    requires OnItsOwn(jobs, job)
    requires Holds(fs, job, hash) && Inspects(plan, job)
    ensures job.path !in Writes(fs, jobs, plan, hash)
    ensures Found(RunJobs(fs, jobs, plan, hash), job.path) == Found(fs, job.path)
  {
    var i :| 0 <= i < |jobs| && jobs[i] == job && Isolated(jobs, i);
    SingleRestore(fs, job, plan, hash);
    RunPointwise(fs, jobs, i, plan, hash);
    WritesPointwise(fs, jobs, i, plan, hash);
    FoundIs(fs, job.path);
    FoundIs(RunJobs(fs, jobs, plan, hash), job.path);
  }

  datatype Run = Run(jobs: seq<Job>, plan: Plan)

  ghost function AfterRuns(fs: FileSystem, runs: seq<Run>, hash: Hash): FileSystem
    decreases |runs|
  {
    if runs == [] then fs
    else AfterRuns(RunJobs(fs, runs[0].jobs, runs[0].plan, hash), runs[1..], hash)
  }

  ghost function AllWrites(fs: FileSystem, runs: seq<Run>, hash: Hash): seq<string>
    decreases |runs|
  {
    if runs == [] then []
    else Writes(fs, runs[0].jobs, runs[0].plan, hash)
         + AllWrites(RunJobs(fs, runs[0].jobs, runs[0].plan, hash), runs[1..], hash)
  }

  ghost predicate Attempts(run: Run, job: Job) {
    OnItsOwn(run.jobs, job) && Inspects(run.plan, job)
  }

  /** Over any number of runs with any failures of mkdir and tee, a target that is right stays
      right and is never written again: the set of right targets only grows. */
  lemma {:induction false} Monotone(fs: FileSystem, runs: seq<Run>, job: Job, hash: Hash)
    requires Holds(fs, job, hash)
    requires forall i | 0 <= i < |runs| :: Attempts(runs[i], job)
    ensures Found(AfterRuns(fs, runs, hash), job.path) == Found(fs, job.path)
    ensures Holds(AfterRuns(fs, runs, hash), job, hash)
    ensures job.path !in AllWrites(fs, runs, hash)
    decreases |runs|
  {
    if runs != [] {
      var run := runs[0];
      assert Attempts(run, job);
      NotRewritten(fs, run.jobs, job, run.plan, hash);
      Monotone(RunJobs(fs, run.jobs, run.plan, hash), runs[1..], job, hash);
    }
  }

  /** A run makes a target right whose own steps work exactly if it was right already or open. */
  lemma FailureFreeRun(fs: FileSystem, jobs: seq<Job>, job: Job, plan: Plan, hash: Hash)
    requires OnItsOwn(jobs, job)
    requires job.data != [] && |job.data| <= MAX_INT && Delivers(plan, job)
    ensures Holds(RunJobs(fs, jobs, plan, hash), job, hash) <==> Holds(fs, job, hash) || Open(fs, job)
  {
    var i :| 0 <= i < |jobs| && jobs[i] == job && Isolated(jobs, i);
    RunPointwise(fs, jobs, i, plan, hash);
    FoundIs(RunJobs(fs, jobs, plan, hash), job.path);
    FoundIs(Restored(fs, job, plan, hash), job.path);
    FailureFree(fs, job, plan, hash);
  }

  predicate Settled(fs: FileSystem, jobs: seq<Job>, hash: Hash) {
    forall job | job in jobs :: job.data == [] || Holds(fs, job, hash)
  }

  /** A run over settled targets issues no write and changes nothing, whatever else fails. */
  lemma {:induction false} SettledRun(fs: FileSystem, jobs: seq<Job>, plan: Plan, hash: Hash)
    requires Settled(fs, jobs, hash)
    requires forall job | job in jobs :: Inspects(plan, job)
    ensures RunJobs(fs, jobs, plan, hash) == fs && Writes(fs, jobs, plan, hash) == []
    decreases |jobs|
  {
    if jobs != [] {
      assert jobs[0] in jobs;
      SingleRestore(fs, jobs[0], plan, hash);
      NothingToWrite(fs, jobs[0], plan, hash);
      SettledRun(fs, jobs[1..], plan, hash);
    }
  }

  /** After one failure-free run, later runs in any order are silent. */
  lemma Converges(fs: FileSystem, first: Run, second: Run, hash: Hash)
    requires AllIndependent(first.jobs) && multiset(first.jobs) == multiset(second.jobs)
    requires forall job | job in first.jobs ::
               |job.data| <= MAX_INT && Open(fs, job) && Delivers(first.plan, job) && Inspects(second.plan, job)
    ensures var middle := RunJobs(fs, first.jobs, first.plan, hash);
            && Settled(middle, first.jobs, hash)
            && RunJobs(middle, second.jobs, second.plan, hash) == middle
            && Writes(middle, second.jobs, second.plan, hash) == []
  {
    var middle := RunJobs(fs, first.jobs, first.plan, hash);
    forall job | job in first.jobs && job.data != []
      ensures Holds(middle, job, hash)
    {
      var i :| 0 <= i < |first.jobs| && first.jobs[i] == job;
      assert Isolated(first.jobs, i);
      FailureFreeRun(fs, first.jobs, job, first.plan, hash);
    }
    assert forall job :: job in second.jobs <==> job in multiset(second.jobs);
    assert forall job :: job in first.jobs <==> job in multiset(first.jobs);
    SettledRun(middle, second.jobs, second.plan, hash);
  }
}
