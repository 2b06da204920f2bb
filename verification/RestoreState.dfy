/** Restoring the captured state of a node (internal/extractor/extractor.go:237-271). */
module RestoreState {
  import opened Wrappers
  import opened Text
  import opened Encoding
  import opened Paths
  import opened Restore
  import opened RestoreRuns
  import opened State
  import opened Sequences

  // ---------- the files to restore ----------

  predicate SafeNames(names: set<string>) {
    forall name | name in names :: ShellSafe(name)
  }

  /** Names without a restore path never get into a command. */
  predicate SafeCertificateNames(names: set<string>) {
    forall name | name in names && CertificateRestorePath(name) != "" :: ShellSafe(name)
  }

  /** The names that get into commands can stand there unquoted. */
  predicate ShellNames(state: SystemState) {
    SafeNames(state.databases.Keys) && SafeCertificateNames(state.certificates.Keys)
  }

  function DatabaseJob(databases: map<string, Bytes>, name: string): Job
    requires name in databases && ShellSafe(name)
  {
    DatabasePathWord(name);
    Job(DatabasePath(name), databases[name])
  }

  function CertificateJob(certificates: map<string, Bytes>, name: string): Job
    requires name in certificates && CertificateRestorePath(name) != "" && ShellSafe(name)
  {
    CertificatePathWord(name);
    Job(CertificateRestorePath(name), certificates[name])
  }

  function XrayJob(configs: map<string, Bytes>, name: string): Job
    requires name in configs
  {
    XrayPathWord();
    Job(XRAY_PATH, configs[name])
  }

  function DatabaseJobs(databases: map<string, Bytes>, names: set<string>): set<Job>
    requires names <= databases.Keys && SafeNames(names)
  {
    set name | name in names :: DatabaseJob(databases, name)
  }

  /** Certificates without a restore path are skipped. */
  function CertificateJobs(certificates: map<string, Bytes>, names: set<string>): set<Job>
    requires names <= certificates.Keys && SafeCertificateNames(names)
  {
    set name | name in names && CertificateRestorePath(name) != "" :: CertificateJob(certificates, name)
  }

  /** Of the configurations only the xray one is restored. */
  function XrayJobs(configs: map<string, Bytes>, names: set<string>): set<Job>
    requires names <= configs.Keys
  {
    set name | name in names && name == XRAY_NAME :: XrayJob(configs, name)
  }

  function JobBag(state: SystemState): multiset<Job>
    requires ShellNames(state)
  {
    multiset(DatabaseJobs(state.databases, state.databases.Keys))
    + multiset(CertificateJobs(state.certificates, state.certificates.Keys))
    + multiset(XrayJobs(state.configs, state.configs.Keys))
  }

  /** The orders that a run can take: first the databases, then the certificates, then the xray
      configuration, and within each family any order. */
  ghost predicate InOrder(state: SystemState, databases: seq<Job>, certificates: seq<Job>, configs: seq<Job>)
    requires ShellNames(state)
  {
    && multiset(databases) == multiset(DatabaseJobs(state.databases, state.databases.Keys))
    && multiset(certificates) == multiset(CertificateJobs(state.certificates, state.certificates.Keys))
    && multiset(configs) == multiset(XrayJobs(state.configs, state.configs.Keys))
  }

  ghost predicate RunOrder(state: SystemState, jobs: seq<Job>)
    requires ShellNames(state)
  {
    exists databases, certificates, configs ::
      InOrder(state, databases, certificates, configs) && jobs == databases + certificates + configs
  }

  lemma Ordered(state: SystemState, databases: seq<Job>, certificates: seq<Job>, configs: seq<Job>, jobs: seq<Job>)
    requires ShellNames(state) && InOrder(state, databases, certificates, configs)
    requires jobs == databases + certificates + configs
    ensures RunOrder(state, jobs)
  {
  }

  lemma RunOrderBag(state: SystemState, jobs: seq<Job>)
    requires ShellNames(state) && RunOrder(state, jobs)
    ensures multiset(jobs) == JobBag(state)
  {
  }

  // ---------- one run ----------

  lemma RunSnoc(fs: FileSystem, jobs: seq<Job>, job: Job, plan: Plan, hash: Hash)
    ensures RunJobs(fs, jobs + [job], plan, hash) == Restored(RunJobs(fs, jobs, plan, hash), job, plan, hash)
    ensures Writes(fs, jobs + [job], plan, hash) == Writes(fs, jobs, plan, hash)
              + if EffectOf(RunJobs(fs, jobs, plan, hash), job, plan, hash).wrote then [job.path] else []
  {
    RunConcat(fs, jobs, [job], plan, hash);
    assert [job][1..] == [];
    WritesSnoc(fs, jobs, job, plan, hash);
  }

  function WriteOf(fs: FileSystem, job: Job, plan: Plan, hash: Hash): seq<string> {
    if EffectOf(fs, job, plan, hash).wrote then [job.path] else []
  }

  lemma {:induction false} WritesSnoc(fs: FileSystem, jobs: seq<Job>, job: Job, plan: Plan, hash: Hash)
    ensures Writes(fs, jobs + [job], plan, hash)
         == Writes(fs, jobs, plan, hash) + WriteOf(RunJobs(fs, jobs, plan, hash), job, plan, hash)
    decreases |jobs|
  {
    if jobs == [] {
      assert [job][1..] == [];
      assert jobs + [job] == [job];
    } else {
      var next := Restored(fs, jobs[0], plan, hash);
      assert (jobs + [job])[0] == jobs[0] && (jobs + [job])[1..] == jobs[1..] + [job];
      WritesSnoc(next, jobs[1..], job, plan, hash);
      Associative(WriteOf(fs, jobs[0], plan, hash), Writes(next, jobs[1..], plan, hash),
                  WriteOf(RunJobs(fs, jobs, plan, hash), job, plan, hash));
    }
  }

  /** The run so far: the jobs done, in order, and what they did. */
  ghost predicate Progress(remote: Remote, start: FileSystem, written: seq<string>, jobs: seq<Job>, plan: Plan)
    reads remote
  {
    && remote.State() == RunJobs(start, jobs, plan, remote.hash)
    && remote.writes == written + Writes(start, jobs, plan, remote.hash)
  }

  method RestoreOne(remote: Remote, job: Job, plan: Plan,
                    ghost start: FileSystem, ghost written: seq<string>, ghost prior: seq<Job>, ghost jobs: seq<Job>)
    requires Progress(remote, start, written, prior + jobs, plan)
    modifies remote
    ensures Progress(remote, start, written, prior + (jobs + [job]), plan)
  {
    RunSnoc(start, prior + jobs, job, plan, remote.hash);
    assert (prior + jobs) + [job] == prior + (jobs + [job]);
    var error := RestoreBytesIfChanged(remote, job.path, job.data, plan(job.path));
  }

  lemma KeysDone(keys: set<string>, left: set<string>, name: string)
    requires name in left && left <= keys
    ensures keys - (left - {name}) == (keys - left) + {name}
  {
  }

  method RestoreDatabases(remote: Remote, databases: map<string, Bytes>, plan: Plan,
                          ghost start: FileSystem, ghost written: seq<string>, ghost prior: seq<Job>)
    returns (ghost jobs: seq<Job>)
    requires Progress(remote, start, written, prior, plan) && SafeNames(databases.Keys)
    modifies remote
    ensures Progress(remote, start, written, prior + jobs, plan)
    ensures multiset(jobs) == multiset(DatabaseJobs(databases, databases.Keys))
  {
    jobs := [];
    assert prior + jobs == prior;
    var names := databases.Keys;
    while names != {}
      invariant names <= databases.Keys
      invariant Progress(remote, start, written, prior + jobs, plan)
      invariant multiset(jobs) == multiset(DatabaseJobs(databases, databases.Keys - names))
      decreases |names|
    {
      var name :| name in names;
      var job := DatabaseJob(databases, name);
      RestoreOne(remote, job, plan, start, written, prior, jobs);
      DatabaseJobsGrow(databases, databases.Keys - names, name);
      KeysDone(databases.Keys, names, name);
      jobs := jobs + [job];
      names := names - {name};
    }
    assert databases.Keys - names == databases.Keys;
  }

  lemma DatabaseJobsGrow(databases: map<string, Bytes>, done: set<string>, name: string)
    requires done <= databases.Keys && name in databases && name !in done && SafeNames(databases.Keys)
    ensures multiset(DatabaseJobs(databases, done + {name}))
         == multiset(DatabaseJobs(databases, done)) + multiset{DatabaseJob(databases, name)}
  {
    forall other | other in done
      ensures DatabaseJob(databases, other) != DatabaseJob(databases, name)
    {
      if DatabasePath(other) == DatabasePath(name) {
        UnderInjective(DATABASE_DIR, other, name);
      }
    }
    assert DatabaseJobs(databases, done + {name}) == DatabaseJobs(databases, done) + {DatabaseJob(databases, name)};
  }

  method RestoreCertificates(remote: Remote, certificates: map<string, Bytes>, plan: Plan,
                             ghost start: FileSystem, ghost written: seq<string>, ghost prior: seq<Job>)
    returns (ghost jobs: seq<Job>)
    requires Progress(remote, start, written, prior, plan) && SafeCertificateNames(certificates.Keys)
    modifies remote
    ensures Progress(remote, start, written, prior + jobs, plan)
    ensures multiset(jobs) == multiset(CertificateJobs(certificates, certificates.Keys))
  {
    jobs := [];
    assert prior + jobs == prior;
    var names := certificates.Keys;
    while names != {}
      invariant names <= certificates.Keys
      invariant Progress(remote, start, written, prior + jobs, plan)
      invariant multiset(jobs) == multiset(CertificateJobs(certificates, certificates.Keys - names))
      decreases |names|
    {
      var name :| name in names;
      CertificateJobsGrow(certificates, certificates.Keys - names, name);
      KeysDone(certificates.Keys, names, name);
      names := names - {name};
      if CertificateRestorePath(name) == "" {
        continue;
      }
      var job := CertificateJob(certificates, name);
      RestoreOne(remote, job, plan, start, written, prior, jobs);
      jobs := jobs + [job];
    }
    assert certificates.Keys - names == certificates.Keys;
  }

  lemma CertificateJobsGrow(certificates: map<string, Bytes>, done: set<string>, name: string)
    requires done <= certificates.Keys && name in certificates && name !in done
    requires SafeCertificateNames(certificates.Keys)
    ensures multiset(CertificateJobs(certificates, done + {name}))
         == multiset(CertificateJobs(certificates, done))
            + if CertificateRestorePath(name) == "" then multiset{}
              else multiset{CertificateJob(certificates, name)}
  {
    if CertificateRestorePath(name) == "" {
      assert CertificateJobs(certificates, done + {name}) == CertificateJobs(certificates, done);
    } else {
      forall other | other in done && CertificateRestorePath(other) != ""
        ensures CertificateJob(certificates, other) != CertificateJob(certificates, name)
      {
        if CertificateRestorePath(other) == CertificateRestorePath(name) {
          CertificatePathInjective(other, name);
        }
      }
      assert CertificateJobs(certificates, done + {name})
          == CertificateJobs(certificates, done) + {CertificateJob(certificates, name)};
    }
  }

  method RestoreConfigs(remote: Remote, configs: map<string, Bytes>, plan: Plan,
                        ghost start: FileSystem, ghost written: seq<string>, ghost prior: seq<Job>)
    returns (ghost jobs: seq<Job>)
    requires Progress(remote, start, written, prior, plan)
    modifies remote
    ensures Progress(remote, start, written, prior + jobs, plan)
    ensures multiset(jobs) == multiset(XrayJobs(configs, configs.Keys))
  {
    jobs := [];
    assert prior + jobs == prior;
    var names := configs.Keys;
    while names != {}
      invariant names <= configs.Keys
      invariant Progress(remote, start, written, prior + jobs, plan)
      invariant multiset(jobs) == multiset(XrayJobs(configs, configs.Keys - names))
      decreases |names|
    {
      var name :| name in names;
      XrayJobsGrow(configs, configs.Keys - names, name);
      KeysDone(configs.Keys, names, name);
      names := names - {name};
      if name == XRAY_NAME {
        var job := XrayJob(configs, name);
        RestoreOne(remote, job, plan, start, written, prior, jobs);
        jobs := jobs + [job];
      }
    }
    assert configs.Keys - names == configs.Keys;
  }

  lemma XrayJobsGrow(configs: map<string, Bytes>, done: set<string>, name: string)
    requires done <= configs.Keys && name in configs && name !in done
    ensures multiset(XrayJobs(configs, done + {name}))
         == multiset(XrayJobs(configs, done))
            + if name == XRAY_NAME then multiset{XrayJob(configs, name)} else multiset{}
  {
    if name == XRAY_NAME {
      assert XrayJobs(configs, done) == {};
      assert XrayJobs(configs, done + {name}) == {XrayJob(configs, name)};
    } else {
      assert XrayJobs(configs, done + {name}) == XrayJobs(configs, done);
    }
  }

  /** RestoreSystemState. It visits the maps in an order that the program does not control, and
      goes on to the next file whatever becomes of the one before. */
  method RestoreSystemState(remote: Remote, state: SystemState, plan: Plan) returns (ghost jobs: seq<Job>)
    requires ShellNames(state) && remote.Valid()
    modifies remote
    ensures RunOrder(state, jobs)
    ensures remote.Valid()
    ensures PlainNames(state) ==> AllArrive(state, old(remote.State()), remote.State(), plan, remote.hash)
    ensures forall loc | !IsTarget(state, loc) :: FileAt(remote.State(), loc) == FileAt(old(remote.State()), loc)
    ensures remote.State() == RunJobs(old(remote.State()), jobs, plan, remote.hash)
    ensures remote.writes == old(remote.writes) + Writes(old(remote.State()), jobs, plan, remote.hash)
  {
    ghost var start, written := remote.State(), remote.writes;
    ghost var databaseJobs := RestoreDatabases(remote, state.databases, plan, start, written, []);
    assert [] + databaseJobs == databaseJobs;
    ghost var certificateJobs :=
      RestoreCertificates(remote, state.certificates, plan, start, written, databaseJobs);
    ghost var xrayJobs :=
      RestoreConfigs(remote, state.configs, plan, start, written, databaseJobs + certificateJobs);
    jobs := databaseJobs + certificateJobs + xrayJobs;
    Ordered(state, databaseJobs, certificateJobs, xrayJobs, jobs);
    RunArrives(state, start, jobs, plan, remote.hash);
  }

  lemma RunArrives(state: SystemState, fs: FileSystem, jobs: seq<Job>, plan: Plan, hash: Hash)
    requires ShellNames(state) && RunOrder(state, jobs)
    ensures PlainNames(state) ==> AllArrive(state, fs, RunJobs(fs, jobs, plan, hash), plan, hash)
    ensures forall loc | !IsTarget(state, loc) :: FileAt(RunJobs(fs, jobs, plan, hash), loc) == FileAt(fs, loc)
  {
    if PlainNames(state) {
      FilesArrive(state, fs, jobs, plan, hash);
    }
    forall loc | !IsTarget(state, loc)
      ensures FileAt(RunJobs(fs, jobs, plan, hash), loc) == FileAt(fs, loc)
    {
      OthersKept(state, fs, jobs, loc, plan, hash);
    }
  }

  // ---------- the families are independent ----------

  /** Names that denote single segments: no slashes in database names, and no empty or dot
      segments anywhere. */
  predicate PlainNames(state: SystemState) {
    && ShellNames(state)
    && (forall name | name in state.databases :: Plain(name))
    && (forall name | name in state.certificates && CertificateRestorePath(name) != "" ::
          Plain(Split(name, '/')[0]) && Plain(Split(name, '/')[1]))
  }

  const DATABASE_ROOT_AT: Location := ["opt", "3x-ui", "db"]
  const LIVE_ROOT_AT: Location := ["etc", "letsencrypt", "live"]
  const XRAY_ROOT_AT: Location := ["etc", "x-ui"]

  predicate DatabaseShape(job: Job, name: string) {
    Resolve(job.path) == DATABASE_ROOT_AT + [name] && ParentOf(job.path) == DATABASE_ROOT_AT && Direct(job.path)
  }

  predicate CertificateShape(job: Job, domain: string, file: string) {
    && Resolve(job.path) == LIVE_ROOT_AT + [domain, file] && ParentOf(job.path) == LIVE_ROOT_AT + [domain]
    && Direct(job.path)
  }

  predicate XrayShape(job: Job) {
    Resolve(job.path) == XRAY_ROOT_AT + [XRAY_NAME] && ParentOf(job.path) == XRAY_ROOT_AT && Direct(job.path)
  }

  lemma DatabaseJobShape(databases: map<string, Bytes>, name: string)
    requires name in databases && Plain(name) && ShellSafe(name)
    ensures DatabaseShape(DatabaseJob(databases, name), name)
  {
    DatabaseLocation(name);
  }

  lemma CertificateJobShape(certificates: map<string, Bytes>, name: string)
    requires name in certificates && CertificateRestorePath(name) != "" && ShellSafe(name)
    requires Plain(Split(name, '/')[0]) && Plain(Split(name, '/')[1])
    ensures CertificateShape(CertificateJob(certificates, name), Split(name, '/')[0], Split(name, '/')[1])
  {
    TwoParts(name);
    CertificateLocation(Split(name, '/')[0], Split(name, '/')[1]);
  }

  /** Paths without detours are independent unless one target lies on the way to the other. */
  lemma DirectApart(a: Job, b: Job)
    requires Direct(a.path) && Direct(b.path) && Resolve(a.path) != Resolve(b.path)
    requires !(Resolve(a.path) <= ParentOf(b.path)) && !(Resolve(b.path) <= ParentOf(a.path))
    ensures Independent(a, b)
  {
    assert DeadEnds(a.path) <= Detours(a.path) && DeadEnds(b.path) <= Detours(b.path);
  }

  lemma DatabasesApart(a: Job, x: string, b: Job, y: string)
    requires DatabaseShape(a, x) && DatabaseShape(b, y) && x != y
    ensures Independent(a, b)
  {
    assert Resolve(a.path)[3] == x && Resolve(b.path)[3] == y;
    DirectApart(a, b);
  }

  lemma CertificatesApart(a: Job, d: string, f: string, b: Job, e: string, g: string)
    requires CertificateShape(a, d, f) && CertificateShape(b, e, g) && (d != e || f != g)
    ensures Independent(a, b)
  {
    assert Resolve(a.path)[3] == d && Resolve(b.path)[3] == e;
    assert Resolve(a.path)[4] == f && Resolve(b.path)[4] == g;
    DirectApart(a, b);
  }

  lemma DatabaseCertificateApart(a: Job, x: string, b: Job, d: string, f: string)
    requires DatabaseShape(a, x) && CertificateShape(b, d, f)
    ensures Independent(a, b) && a != b
  {
    assert Resolve(a.path)[0] == ParentOf(a.path)[0] == "opt";
    assert Resolve(b.path)[0] == ParentOf(b.path)[0] == "etc";
    assert "opt"[0] != "etc"[0];
    DirectApart(a, b);
  }

  lemma DatabaseXrayApart(a: Job, x: string, c: Job)
    requires DatabaseShape(a, x) && XrayShape(c)
    ensures Independent(a, c) && a != c
  {
    assert Resolve(a.path)[0] == ParentOf(a.path)[0] == "opt";
    assert Resolve(c.path)[0] == ParentOf(c.path)[0] == "etc";
    assert "opt"[0] != "etc"[0];
    DirectApart(a, c);
  }

  lemma CertificateXrayApart(b: Job, d: string, f: string, c: Job)
    requires CertificateShape(b, d, f) && XrayShape(c)
    ensures Independent(b, c) && b != c
  {
    assert Resolve(b.path)[1] == ParentOf(b.path)[1] == "letsencrypt";
    assert Resolve(c.path)[1] == ParentOf(c.path)[1] == "x-ui";
    assert "letsencrypt"[0] != "x-ui"[0];
    DirectApart(b, c);
  }

  // ---------- what a plain state promises ----------

  ghost predicate IsDatabase(state: SystemState, job: Job, name: string) {
    name in state.databases && ShellSafe(name) && job == DatabaseJob(state.databases, name) && DatabaseShape(job, name)
  }

  ghost predicate IsCertificate(state: SystemState, job: Job, name: string) {
    && name in state.certificates && CertificateRestorePath(name) != "" && ShellSafe(name)
    && job == CertificateJob(state.certificates, name)
    && CertificateShape(job, Split(name, '/')[0], Split(name, '/')[1])
  }

  ghost predicate IsXray(state: SystemState, job: Job) {
    XRAY_NAME in state.configs && job == XrayJob(state.configs, XRAY_NAME) && XrayShape(job)
  }

  /** The shapes that the jobs of a plain state can have. */
  ghost predicate Shaped(state: SystemState, job: Job) {
    || (exists name :: IsDatabase(state, job, name))
    || (exists name :: IsCertificate(state, job, name))
    || IsXray(state, job)
  }

  lemma JobsShaped(state: SystemState, job: Job)
    requires PlainNames(state) && job in JobBag(state)
    ensures Shaped(state, job)
  {
    if job in DatabaseJobs(state.databases, state.databases.Keys) {
      var name :| name in state.databases && job == DatabaseJob(state.databases, name);
      DatabaseJobShape(state.databases, name);
      assert IsDatabase(state, job, name);
    } else if job in CertificateJobs(state.certificates, state.certificates.Keys) {
      var name := CertificateNameOf(state, job);
      CertificateJobShape(state.certificates, name);
      assert IsCertificate(state, job, name);
    } else {
      XrayLocation();
    }
  }

  lemma CertificateNameOf(state: SystemState, job: Job) returns (name: string)
    requires ShellNames(state) && job in CertificateJobs(state.certificates, state.certificates.Keys)
    ensures name in state.certificates && CertificateRestorePath(name) != ""
    ensures job == CertificateJob(state.certificates, name)
  {
    name :| && name in state.certificates && CertificateRestorePath(name) != ""
            && job == CertificateJob(state.certificates, name);
  }

  lemma SymmetricIndependence(a: Job, b: Job)
    ensures Independent(a, b) <==> Independent(b, a)
  {
  }

  lemma ShapedApart(state: SystemState, a: Job, b: Job)
    requires Shaped(state, a) && Shaped(state, b) && a != b
    ensures Independent(a, b)
  {
    if x :| IsDatabase(state, a, x) {
      DatabaseApart(state, a, x, b);
    } else if x :| IsDatabase(state, b, x) {
      DatabaseApart(state, b, x, a);
    } else if m :| IsCertificate(state, a, m) {
      CertificateApart(state, a, m, b);
    } else {
      var n :| IsCertificate(state, b, n);
      CertificateApart(state, b, n, a);
    }
  }

  lemma DatabaseApart(state: SystemState, a: Job, x: string, b: Job)
    requires IsDatabase(state, a, x) && Shaped(state, b) && a != b
    ensures Independent(a, b) && Independent(b, a)
  {
    SymmetricIndependence(a, b);
    if y :| IsDatabase(state, b, y) {
      DatabasesApart(a, x, b, y);
    } else if name :| IsCertificate(state, b, name) {
      DatabaseCertificateApart(a, x, b, Split(name, '/')[0], Split(name, '/')[1]);
    } else {
      DatabaseXrayApart(a, x, b);
    }
  }

  lemma CertificateApart(state: SystemState, a: Job, m: string, b: Job)
    requires IsCertificate(state, a, m) && Shaped(state, b) && a != b
    requires !exists x :: IsDatabase(state, b, x)
    ensures Independent(a, b) && Independent(b, a)
  {
    SymmetricIndependence(a, b);
    if n :| IsCertificate(state, b, n) {
      TwoParts(m);
      TwoParts(n);
      CertificatesApart(a, Split(m, '/')[0], Split(m, '/')[1], b, Split(n, '/')[0], Split(n, '/')[1]);
    } else {
      CertificateXrayApart(a, Split(m, '/')[0], Split(m, '/')[1], b);
    }
  }

  // ---------- the jobs of any state ----------

  /** The paths tell the families apart. */
  lemma FamilyPaths(state: SystemState, job: Job)
    requires ShellNames(state)
    ensures job in DatabaseJobs(state.databases, state.databases.Keys) ==> DATABASE_DIR <= job.path
    ensures job in CertificateJobs(state.certificates, state.certificates.Keys) ==> LIVE_DIR <= job.path
    ensures job in XrayJobs(state.configs, state.configs.Keys) ==> job.path == XRAY_PATH
  {
    if job in CertificateJobs(state.certificates, state.certificates.Keys) {
      var name := CertificateNameOf(state, job);
      UnderNested(LIVE_DIR, Split(name, '/')[0], Split(name, '/')[1]);
    }
  }

  lemma DirsApart(path: string)
    ensures !(DATABASE_DIR <= path && LIVE_DIR <= path)
    ensures !(DATABASE_DIR <= XRAY_PATH) && !(LIVE_DIR <= XRAY_PATH)
  {
    assert DATABASE_DIR[1] == 'o' && LIVE_DIR[1] == 'e' && XRAY_PATH[1] == 'e';
    assert LIVE_DIR[5] == 'l' && XRAY_PATH[5] == 'x';
  }

  lemma BagOnce(state: SystemState, job: Job)
    requires ShellNames(state)
    ensures JobBag(state)[job] <= 1
  {
    FamilyPaths(state, job);
    DirsApart(job.path);
  }

  /** No two jobs of a state share a path. */
  lemma BagPaths(state: SystemState, a: Job, b: Job)
    requires ShellNames(state) && a in JobBag(state) && b in JobBag(state) && a.path == b.path
    ensures a == b
  {
    FamilyPaths(state, a);
    FamilyPaths(state, b);
    DirsApart(a.path);
    if a in DatabaseJobs(state.databases, state.databases.Keys) {
      var m :| m in state.databases && a == DatabaseJob(state.databases, m);
      var n :| n in state.databases && b == DatabaseJob(state.databases, n);
      UnderInjective(DATABASE_DIR, m, n);
    } else if a in CertificateJobs(state.certificates, state.certificates.Keys) {
      var m := CertificateNameOf(state, a);
      var n := CertificateNameOf(state, b);
      CertificatePathInjective(m, n);
    }
  }

  lemma BagDistinct(state: SystemState, jobs: seq<Job>)
    requires ShellNames(state) && multiset(jobs) == JobBag(state)
    ensures DistinctPaths(jobs)
  {
    forall i, j | 0 <= i < j < |jobs|
      ensures jobs[i].path != jobs[j].path
    {
      assert jobs[i] in multiset(jobs) && jobs[j] in multiset(jobs);
      BagOnce(state, jobs[i]);
      NoRepeats(jobs, i, j);
      if jobs[i].path == jobs[j].path {
        BagPaths(state, jobs[i], jobs[j]);
      }
    }
  }

  // ---------- independence within a state ----------

  /** A file of the state that is independent of all its other files. */
  ghost predicate IsolatedIn(state: SystemState, job: Job)
    requires ShellNames(state)
  {
    && job in JobBag(state)
    && forall other | other in JobBag(state) && other != job :: Independent(other, job)
  }

  ghost predicate Separate(state: SystemState)
    requires ShellNames(state)
  {
    forall job | job in JobBag(state) :: IsolatedIn(state, job)
  }

  lemma BagIsolated(state: SystemState, jobs: seq<Job>, job: Job)
    requires ShellNames(state) && multiset(jobs) == JobBag(state) && IsolatedIn(state, job)
    ensures OnItsOwn(jobs, job)
  {
    assert job in multiset(jobs);
    var i :| 0 <= i < |jobs| && jobs[i] == job;
    BagDistinct(state, jobs);
    forall j | 0 <= j < |jobs| && j != i
      ensures Independent(jobs[j], jobs[i])
    {
      assert jobs[j] in multiset(jobs);
    }
  }

  lemma SeparateJobs(state: SystemState, jobs: seq<Job>)
    requires ShellNames(state) && Separate(state) && multiset(jobs) == JobBag(state)
    ensures AllIndependent(jobs)
  {
    BagDistinct(state, jobs);
    forall i | 0 <= i < |jobs|
      ensures Isolated(jobs, i)
    {
      assert jobs[i] in multiset(jobs);
      BagIsolated(state, jobs, jobs[i]);
      var k :| 0 <= k < |jobs| && jobs[k] == jobs[i] && Isolated(jobs, k);
      assert k == i;
    }
  }

  /** For plain names the targets of a run are pairwise independent, across and within the three
      families. */
  lemma PlainSeparate(state: SystemState)
    requires PlainNames(state)
    ensures Separate(state)
  {
    forall a, b | a in JobBag(state) && b in JobBag(state) && a != b
      ensures Independent(a, b)
    {
      JobsShaped(state, a);
      JobsShaped(state, b);
      ShapedApart(state, a, b);
    }
  }

  // ---------- confluence ----------

  /** Whatever the target holds and whichever failures its paths meet, every order that a run can
      take leaves the same file system. */
  ghost predicate OrdersAgree(state: SystemState, hash: Hash)
    requires ShellNames(state)
  {
    forall fs, plan, a, b | RunOrder(state, a) && RunOrder(state, b) ::
      RunJobs(fs, a, plan, hash) == RunJobs(fs, b, plan, hash)
  }

  /** The files of each family are compatible; those of different families never change places. */
  ghost predicate FamiliesCompatible(state: SystemState)
    requires ShellNames(state)
  {
    && SetCompatible(DatabaseJobs(state.databases, state.databases.Keys))
    && SetCompatible(CertificateJobs(state.certificates, state.certificates.Keys))
  }

  predicate SetCompatible(jobs: set<Job>) {
    forall a, b | a in jobs && b in jobs :: Compatible(a, b)
  }

  lemma ListCompatible(jobs: seq<Job>, all: set<Job>)
    requires multiset(jobs) == multiset(all)
    ensures AllCompatible(jobs) <==> SetCompatible(all)
  {
    assert forall job :: job in jobs <==> job in multiset(jobs);
    assert forall job :: job in all <==> job in multiset(all);
  }

  lemma XrayAlone(state: SystemState)
    ensures SetCompatible(XrayJobs(state.configs, state.configs.Keys))
  {
  }

  lemma FamiliesConfluent(state: SystemState, fs: FileSystem, plan: Plan, hash: Hash,
                          d: seq<Job>, c: seq<Job>, x: seq<Job>, e: seq<Job>, g: seq<Job>, y: seq<Job>)
    requires ShellNames(state) && FamiliesCompatible(state)
    requires InOrder(state, d, c, x) && InOrder(state, e, g, y)
    ensures RunJobs(fs, d + c + x, plan, hash) == RunJobs(fs, e + g + y, plan, hash)
  {
    ListCompatible(d, DatabaseJobs(state.databases, state.databases.Keys));
    ListCompatible(c, CertificateJobs(state.certificates, state.certificates.Keys));
    ListCompatible(x, XrayJobs(state.configs, state.configs.Keys));
    XrayAlone(state);
    ThreeGroups(fs, d, c, x, plan, hash);
    ThreeGroups(fs, e, g, y, plan, hash);
    Confluent(fs, d, e, plan, hash);
    var first := RunJobs(fs, d, plan, hash);
    Confluent(first, c, g, plan, hash);
    Confluent(RunJobs(first, c, plan, hash), x, y, plan, hash);
  }

  lemma ThreeGroups(fs: FileSystem, a: seq<Job>, b: seq<Job>, c: seq<Job>, plan: Plan, hash: Hash)
    ensures RunJobs(fs, a + b + c, plan, hash)
         == RunJobs(RunJobs(RunJobs(fs, a, plan, hash), b, plan, hash), c, plan, hash)
  {
    RunConcat(fs, a + b, c, plan, hash);
    RunConcat(fs, a, b, plan, hash);
  }

  lemma SomeOrder(state: SystemState) returns (d: seq<Job>, c: seq<Job>, x: seq<Job>)
    requires ShellNames(state)
    ensures InOrder(state, d, c, x) && DistinctPaths(d + c + x)
  {
    d := Listing(multiset(DatabaseJobs(state.databases, state.databases.Keys)));
    c := Listing(multiset(CertificateJobs(state.certificates, state.certificates.Keys)));
    x := Listing(multiset(XrayJobs(state.configs, state.configs.Keys)));
    Ordered(state, d, c, x, d + c + x);
    RunOrderBag(state, d + c + x);
    BagDistinct(state, d + c + x);
  }

  /** Databases that are not compatible are restored in two orders with different ends. */
  lemma DatabaseOrderMatters(state: SystemState, hash: Hash)
    requires ShellNames(state) && !SetCompatible(DatabaseJobs(state.databases, state.databases.Keys))
    ensures !OrdersAgree(state, hash)
  {
    var d, c, x := SomeOrder(state);
    ListCompatible(d, DatabaseJobs(state.databases, state.databases.Keys));
    var i, j := Incompatible(d);
    FirstGroup(d, c, x);
    var fs, plan, one, two := OrderMatters([], d, c + x, i, j, hash);
    FirstGroup(one, c, x);
    FirstGroup(two, c, x);
    TwoRunOrders(state, fs, plan, hash, one, c, two, c, x);
  }

  lemma FirstGroup(a: seq<Job>, b: seq<Job>, c: seq<Job>)
    ensures [] + a + (b + c) == a + b + c
  {
  }

  lemma CertificateOrderMatters(state: SystemState, hash: Hash)
    requires ShellNames(state) && !SetCompatible(CertificateJobs(state.certificates, state.certificates.Keys))
    ensures !OrdersAgree(state, hash)
  {
    var d, c, x := SomeOrder(state);
    ListCompatible(c, CertificateJobs(state.certificates, state.certificates.Keys));
    var i, j := Incompatible(c);
    var fs, plan, one, two := OrderMatters(d, c, x, i, j, hash);
    TwoRunOrders(state, fs, plan, hash, d, one, d, two, x);
  }

  lemma TwoRunOrders(state: SystemState, fs: FileSystem, plan: Plan, hash: Hash,
                     d: seq<Job>, c: seq<Job>, e: seq<Job>, g: seq<Job>, x: seq<Job>)
    requires ShellNames(state) && InOrder(state, d, c, x) && InOrder(state, e, g, x)
    requires RunJobs(fs, d + c + x, plan, hash) != RunJobs(fs, e + g + x, plan, hash)
    ensures !OrdersAgree(state, hash)
  {
    Ordered(state, d, c, x, d + c + x);
    Ordered(state, e, g, x, e + g + x);
    TwoEnds(state, fs, plan, hash, d + c + x, e + g + x);
  }

  lemma TwoEnds(state: SystemState, fs: FileSystem, plan: Plan, hash: Hash, a: seq<Job>, b: seq<Job>)
    requires ShellNames(state) && RunOrder(state, a) && RunOrder(state, b)
    requires RunJobs(fs, a, plan, hash) != RunJobs(fs, b, plan, hash)
    ensures !OrdersAgree(state, hash)
  {
  }

  /** Restore does not depend on the order in which the maps are visited exactly when the files of
      each map are pairwise compatible, which can be told from their paths. */
  lemma RestoreConfluentExactly(state: SystemState, hash: Hash)
    requires ShellNames(state)
    ensures OrdersAgree(state, hash) <==> FamiliesCompatible(state)
  {
    if FamiliesCompatible(state) {
      forall fs, plan, a, b | RunOrder(state, a) && RunOrder(state, b)
        ensures RunJobs(fs, a, plan, hash) == RunJobs(fs, b, plan, hash)
      {
        var d, c, x :| InOrder(state, d, c, x) && a == d + c + x;
        var e, g, y :| InOrder(state, e, g, y) && b == e + g + y;
        FamiliesConfluent(state, fs, plan, hash, d, c, x, e, g, y);
      }
    } else if !SetCompatible(DatabaseJobs(state.databases, state.databases.Keys)) {
      DatabaseOrderMatters(state, hash);
    } else {
      CertificateOrderMatters(state, hash);
    }
  }

  /** Plain names are enough. */
  lemma RestoreConfluent(state: SystemState, hash: Hash)
    requires PlainNames(state)
    ensures OrdersAgree(state, hash)
  {
    PlainSeparate(state);
    SeparateCompatible(state);
    RestoreConfluentExactly(state, hash);
  }

  lemma SeparateCompatible(state: SystemState)
    requires ShellNames(state) && Separate(state)
    ensures FamiliesCompatible(state)
  {
    forall a, b | a in DatabaseJobs(state.databases, state.databases.Keys)
                  && b in DatabaseJobs(state.databases, state.databases.Keys)
      ensures Compatible(a, b)
    {
      PairCompatible(state, a, b);
    }
    forall a, b | a in CertificateJobs(state.certificates, state.certificates.Keys)
                  && b in CertificateJobs(state.certificates, state.certificates.Keys)
      ensures Compatible(a, b)
    {
      PairCompatible(state, a, b);
    }
  }

  lemma PairCompatible(state: SystemState, a: Job, b: Job)
    requires ShellNames(state) && Separate(state) && a in JobBag(state) && b in JobBag(state)
    ensures Compatible(a, b)
  {
    assert IsolatedIn(state, b);
  }

  /** Without plain names it need not be: two spellings of one file, with payloads that the
      remote can tell apart, leave whichever was restored last. */
  lemma DotSegmentsCollide(name: string, x: Bytes, y: Bytes, fs: FileSystem, hash: Hash)
    requires Plain(name) && ShellSafe(name) && x != [] && y != [] && |x| <= MAX_INT && |y| <= MAX_INT
    requires InfoOf(x, hash) != InfoOf(y, hash)
    requires !Look(fs, DatabasePath(name)).blocked && Look(fs, DatabasePath(name)).open
    ensures ShellSafe(Under(".", name))
    ensures var state := SystemState(map[], map[name := x, Under(".", name) := y], map[], map[]);
            var a, b := DatabaseJob(state.databases, name), DatabaseJob(state.databases, Under(".", name));
            && ShellNames(state)
            && RunOrder(state, [a, b]) && RunOrder(state, [b, a])
            && RunJobs(fs, [a, b], SMOOTH, hash) != RunJobs(fs, [b, a], SMOOTH, hash)
  {
    var state := SystemState(map[], map[name := x, Under(".", name) := y], map[], map[]);
    ShellSafeUnder(".", name);
    assert |Under(".", name)| == |name| + 2;
    TwoDatabases(state, name, Under(".", name));
    DotJobsCollide(name, DatabaseJob(state.databases, name), DatabaseJob(state.databases, Under(".", name)), fs, hash);
  }

  const SMOOTH: Plan := path => NO_FAULTS

  lemma DotJobsCollide(name: string, a: Job, b: Job, fs: FileSystem, hash: Hash)
    requires Plain(name) && a.path == DatabasePath(name) && b.path == DatabasePath(Under(".", name))
    requires a.data != [] && b.data != [] && |a.data| <= MAX_INT && |b.data| <= MAX_INT
    requires InfoOf(a.data, hash) != InfoOf(b.data, hash)
    requires Open(fs, a)
    ensures RunJobs(fs, [a, b], SMOOTH, hash) != RunJobs(fs, [b, a], SMOOTH, hash)
  {
    DatabaseRoot();
    ResolveDot(DATABASE_DIR, name);
    SharedTargetOrderMatters(fs, a, b, SMOOTH, hash);
  }

  lemma TwoDatabases(state: SystemState, m: string, n: string)
    requires m != n && ShellSafe(m) && ShellSafe(n) && state.databases.Keys == {m, n}
    requires state.certificates == map[] && state.configs == map[]
    ensures var a, b := DatabaseJob(state.databases, m), DatabaseJob(state.databases, n);
            ShellNames(state) && RunOrder(state, [a, b]) && RunOrder(state, [b, a])
  {
    var a, b := DatabaseJob(state.databases, m), DatabaseJob(state.databases, n);
    if a == b {
      UnderInjective(DATABASE_DIR, m, n);
    }
    assert DatabaseJobs(state.databases, state.databases.Keys) == {a, b};
    PairBag(a, b);
    OnlyDatabases(state, [a, b]);
    OnlyDatabases(state, [b, a]);
  }

  lemma OnlyDatabases(state: SystemState, jobs: seq<Job>)
    requires ShellNames(state) && state.certificates == map[] && state.configs == map[]
    requires multiset(jobs) == multiset(DatabaseJobs(state.databases, state.databases.Keys))
    ensures RunOrder(state, jobs)
  {
    assert CertificateJobs(state.certificates, state.certificates.Keys) == {};
    assert XrayJobs(state.configs, state.configs.Keys) == {};
    assert jobs + [] + [] == jobs;
    Ordered(state, jobs, [], [], jobs);
  }

  /** A name that climbs out of the database directory depends on whether that exists already, and
      so on which database is restored first. */
  lemma ClimbingNames(name: string, other: string, x: Bytes, y: Bytes, hash: Hash)
    requires Plain(name) && Plain(other) && ShellSafe(name) && ShellSafe(other) && name != "db"
    requires x != [] && y != []
    ensures var state := SystemState(map[], map[Under("..", name) := x, other := y], map[], map[]);
            ShellNames(state) && !OrdersAgree(state, hash)
  {
    var climbing := Under("..", name);
    var state := SystemState(map[], map[climbing := x, other := y], map[], map[]);
    ShellSafeUnder("..", name);
    assert climbing[2] == '/';
    ClimbingJobs(name, other, DatabaseJob(state.databases, climbing), DatabaseJob(state.databases, other));
    DatabasesIncompatible(state, climbing, other, hash);
  }

  lemma ClimbingJobs(name: string, other: string, a: Job, b: Job)
    requires Plain(name) && Plain(other) && name != "db" && a.data != [] && b.data != []
    requires a.path == DatabasePath(Under("..", name)) && b.path == DatabasePath(other)
    ensures !Compatible(a, b)
  {
    DatabaseRoot();
    ResolveUp(DATABASE_DIR, name);
    DatabaseLocation(other);
    assert !Spares(b, a);
    assert Resolve(a.path)[..2] == ["opt", "3x-ui"] && |Resolve(a.path)| == 3 && |Resolve(b.path)| == 4;
  }

  lemma DatabasesIncompatible(state: SystemState, m: string, n: string, hash: Hash)
    requires ShellNames(state) && m in state.databases && n in state.databases
    requires !Compatible(DatabaseJob(state.databases, m), DatabaseJob(state.databases, n))
    ensures !OrdersAgree(state, hash)
  {
    assert DatabaseJob(state.databases, m) in DatabaseJobs(state.databases, state.databases.Keys);
    assert DatabaseJob(state.databases, n) in DatabaseJobs(state.databases, state.databases.Keys);
    RestoreConfluentExactly(state, hash);
  }

  /** A name with a space is two words of the command: restoring `a b` writes the file of `a`. */
  lemma SpaceSplits(name: string, rest: string)
    requires name != "" && (forall i | 0 <= i < |name| :: !IsSpace(name[i])) && IsWord(rest)
    ensures Fields(DatabasePath(name + " " + rest)) == [DatabasePath(name), rest]
    ensures !OneWord(DatabasePath(name + " " + rest))
  {
    var path := DatabasePath(name + " " + rest);
    assert path == DatabasePath(name) + (" " + rest);
    DatabaseDirWord();
    FieldsCons(DatabasePath(name), " " + rest);
    FieldsSkip(" ", rest);
    FieldsCons(rest, "");
    assert rest + "" == rest;
    assert path[|DatabasePath(name)|] == ' ';
  }

  lemma DatabaseDirWord()
    ensures forall i | 0 <= i < |DATABASE_DIR| :: !IsSpace(DATABASE_DIR[i])
  {
  }

  // ---------- repeated restores ----------

  ghost predicate AttemptsState(run: Run, state: SystemState)
    requires ShellNames(state)
  {
    && multiset(run.jobs) == JobBag(state)
    && forall job | job in run.jobs :: Inspects(run.plan, job)
  }

  /** Over any number of restores of one state, a file that has arrived stays and is never
      written again. */
  lemma RepeatedRestores(state: SystemState, fs: FileSystem, runs: seq<Run>, job: Job, hash: Hash)
    requires ShellNames(state) && IsolatedIn(state, job) && Holds(fs, job, hash)
    requires forall i | 0 <= i < |runs| :: AttemptsState(runs[i], state)
    ensures Found(AfterRuns(fs, runs, hash), job.path) == Found(fs, job.path)
    ensures job.path !in AllWrites(fs, runs, hash)
  {
    forall i | 0 <= i < |runs|
      ensures Attempts(runs[i], job)
    {
      assert AttemptsState(runs[i], state);
      BagIsolated(state, runs[i].jobs, job);
    }
    Monotone(fs, runs, job, hash);
  }

  /** Restoring twice, the first time without failures: the second restore is silent. */
  method RestoreTwice(remote: Remote, state: SystemState, first: Plan, second: Plan)
    requires ShellNames(state) && Separate(state) && remote.Valid()
    requires forall job | job in JobBag(state) ::
               |job.data| <= MAX_INT && Open(remote.State(), job) && Delivers(first, job) && Inspects(second, job)
    modifies remote
    ensures remote.Valid()
    ensures forall job | job in JobBag(state) && job.data != [] :: Holds(remote.State(), job, remote.hash)
    ensures exists jobs :: RunOrder(state, jobs) &&
              remote.writes == old(remote.writes) + Writes(old(remote.State()), jobs, first, remote.hash)
  {
    ghost var start, written := remote.State(), remote.writes;
    ghost var a := RestoreSystemState(remote, state, first);
    ghost var b := RestoreSystemState(remote, state, second);
    RunOrderBag(state, a);
    RunOrderBag(state, b);
    SeparateJobs(state, a);
    assert forall job :: job in a <==> job in multiset(a);
    Converges(start, Run(a, first), Run(b, second), remote.hash);
    assert remote.writes == written + Writes(start, a, first, remote.hash);
  }

  // ---------- arrival ----------

  /** What is on the target is taken for the payload though it is not: it can be inspected, and its
      digest and size are those of the payload, but its bytes are not. */
  predicate TakenFor(fs: FileSystem, path: string, data: Bytes, plan: Plan, hash: Hash) {
    var there := Found(fs, path);
    && !plan(path).lookSha && !plan(path).lookSize
    && there.Some? && |there.value| == |data| <= MAX_INT && hash(there.value) == hash(data)
    && there.value != data
  }

  /** A payload whose own steps do not fail arrives byte for byte, whatever happens to the other
      files and in whatever order, exactly when the restore does not take other content that is
      already there for it. */
  lemma JobArrives(state: SystemState, fs: FileSystem, jobs: seq<Job>, job: Job, plan: Plan, hash: Hash)
    requires ShellNames(state) && IsolatedIn(state, job) && multiset(jobs) == JobBag(state)
    requires job.data != [] && Delivers(plan, job) && Open(fs, job)
    ensures Found(RunJobs(fs, jobs, plan, hash), job.path) == Some(job.data)
       <==> !TakenFor(fs, job.path, job.data, plan, hash)
  {
    BagIsolated(state, jobs, job);
    var i :| 0 <= i < |jobs| && jobs[i] == job && Isolated(jobs, i);
    RunPointwise(fs, jobs, i, plan, hash);
    FoundIs(RunJobs(fs, jobs, plan, hash), job.path);
    FoundIs(Restored(fs, job, plan, hash), job.path);
    DeliveredAlone(fs, job, plan, hash);
  }

  lemma DeliveredAlone(fs: FileSystem, job: Job, plan: Plan, hash: Hash)
    requires job.data != [] && Delivers(plan, job) && Open(fs, job)
    ensures Found(Restored(fs, job, plan, hash), job.path) == Some(job.data)
       <==> !TakenFor(fs, job.path, job.data, plan, hash)
  {
    FoundIs(fs, job.path);
    FoundIs(Restored(fs, job, plan, hash), job.path);
    OwnLook(fs, job, plan, hash);
    var there := Found(fs, job.path);
    if there.Some? {
      ReportsAlike(there.value, job.data, hash);
    }
  }

  // ---------- arrival, in terms of the maps ----------

  /** If the payload is not empty, nothing fails that changes its path, and the path can be opened
      once the directories above it exist, then the path leads to the payload afterwards, exactly
      when other content there is not taken for it. An empty payload changes nothing. */
  predicate Arrives(before: FileSystem, after: FileSystem, path: string, data: Bytes, plan: Plan, hash: Hash) {
    && (data != [] && plan(path).mkdir == Unhindered && plan(path).tee == Undisturbed
        && !Look(before, path).blocked && Look(before, path).open ==>
          (Found(after, path) == Some(data) <==> !TakenFor(before, path, data, plan, hash)))
    && (data == [] ==> Found(after, path) == Found(before, path))
  }

  /** Where each file of a state is to go. */
  predicate AllArrive(state: SystemState, before: FileSystem, after: FileSystem, plan: Plan, hash: Hash) {
    && (forall name | name in state.databases ::
          Arrives(before, after, "/opt/3x-ui/db/" + name, state.databases[name], plan, hash))
    && (forall name | name in state.certificates && |Split(name, '/')| == 2 ::
          Arrives(before, after, "/etc/letsencrypt/live/" + name, state.certificates[name], plan, hash))
    && ("xray.json" in state.configs ==>
          Arrives(before, after, "/etc/x-ui/xray.json", state.configs["xray.json"], plan, hash))
  }

  /** The places that a restore of the state may write. */
  predicate IsTarget(state: SystemState, loc: Location) {
    || (exists name :: name in state.databases && Resolve("/opt/3x-ui/db/" + name) == loc)
    || (exists name :: name in state.certificates && |Split(name, '/')| == 2
                       && Resolve("/etc/letsencrypt/live/" + name) == loc)
    || ("xray.json" in state.configs && Resolve("/etc/x-ui/xray.json") == loc)
  }

  lemma PathsSpelled(name: string)
    ensures DatabasePath(name) == "/opt/3x-ui/db/" + name
    ensures XRAY_PATH == "/etc/x-ui/xray.json" && XRAY_NAME == "xray.json"
    ensures CertificateRestorePath(name) != "" <==> |Split(name, '/')| == 2
    ensures |Split(name, '/')| == 2 ==> CertificateRestorePath(name) == "/etc/letsencrypt/live/" + name
  {
    if |Split(name, '/')| == 2 {
      TwoParts(name);
      UnderNested(LIVE_DIR, Split(name, '/')[0], Split(name, '/')[1]);
    }
  }

  lemma JobDone(state: SystemState, fs: FileSystem, jobs: seq<Job>, job: Job, plan: Plan, hash: Hash)
    requires PlainNames(state) && RunOrder(state, jobs) && job in JobBag(state)
    ensures Arrives(fs, RunJobs(fs, jobs, plan, hash), job.path, job.data, plan, hash)
  {
    RunOrderBag(state, jobs);
    PlainSeparate(state);
    if job.data == [] {
      EmptyJob(state, fs, jobs, job, plan, hash);
    } else if Delivers(plan, job) && Open(fs, job) {
      JobArrives(state, fs, jobs, job, plan, hash);
    }
  }

  lemma EmptyJob(state: SystemState, fs: FileSystem, jobs: seq<Job>, job: Job, plan: Plan, hash: Hash)
    requires ShellNames(state) && IsolatedIn(state, job) && multiset(jobs) == JobBag(state) && job.data == []
    ensures Found(RunJobs(fs, jobs, plan, hash), job.path) == Found(fs, job.path)
  {
    BagIsolated(state, jobs, job);
    var i :| 0 <= i < |jobs| && jobs[i] == job && Isolated(jobs, i);
    RunPointwise(fs, jobs, i, plan, hash);
    NothingToWrite(fs, job, plan, hash);
    FoundIs(RunJobs(fs, jobs, plan, hash), job.path);
    FoundIs(fs, job.path);
  }

  lemma DatabaseDone(state: SystemState, fs: FileSystem, jobs: seq<Job>, name: string, plan: Plan, hash: Hash)
    requires PlainNames(state) && RunOrder(state, jobs) && name in state.databases
    ensures Arrives(fs, RunJobs(fs, jobs, plan, hash), "/opt/3x-ui/db/" + name, state.databases[name], plan, hash)
  {
    PathsSpelled(name);
    assert DatabaseJob(state.databases, name) in DatabaseJobs(state.databases, state.databases.Keys);
    JobDone(state, fs, jobs, DatabaseJob(state.databases, name), plan, hash);
  }

  lemma CertificateDone(state: SystemState, fs: FileSystem, jobs: seq<Job>, name: string, plan: Plan, hash: Hash)
    requires PlainNames(state) && RunOrder(state, jobs) && name in state.certificates && |Split(name, '/')| == 2
    ensures Arrives(fs, RunJobs(fs, jobs, plan, hash), "/etc/letsencrypt/live/" + name, state.certificates[name],
                    plan, hash)
  {
    PathsSpelled(name);
    assert CertificateJob(state.certificates, name) in CertificateJobs(state.certificates, state.certificates.Keys);
    JobDone(state, fs, jobs, CertificateJob(state.certificates, name), plan, hash);
  }

  lemma XrayDone(state: SystemState, fs: FileSystem, jobs: seq<Job>, plan: Plan, hash: Hash)
    requires PlainNames(state) && RunOrder(state, jobs) && "xray.json" in state.configs
    ensures Arrives(fs, RunJobs(fs, jobs, plan, hash), "/etc/x-ui/xray.json", state.configs["xray.json"], plan, hash)
  {
    PathsSpelled("");
    assert XrayJob(state.configs, XRAY_NAME) in XrayJobs(state.configs, state.configs.Keys);
    JobDone(state, fs, jobs, XrayJob(state.configs, XRAY_NAME), plan, hash);
  }

  /** Every file of a plainly named state goes to the path of its map and name. */
  lemma FilesArrive(state: SystemState, fs: FileSystem, jobs: seq<Job>, plan: Plan, hash: Hash)
    requires PlainNames(state) && RunOrder(state, jobs)
    ensures AllArrive(state, fs, RunJobs(fs, jobs, plan, hash), plan, hash)
  {
    var end := RunJobs(fs, jobs, plan, hash);
    forall name | name in state.databases
      ensures Arrives(fs, end, "/opt/3x-ui/db/" + name, state.databases[name], plan, hash)
    {
      DatabaseDone(state, fs, jobs, name, plan, hash);
    }
    forall name | name in state.certificates && |Split(name, '/')| == 2
      ensures Arrives(fs, end, "/etc/letsencrypt/live/" + name, state.certificates[name], plan, hash)
    {
      CertificateDone(state, fs, jobs, name, plan, hash);
    }
    if "xray.json" in state.configs {
      XrayDone(state, fs, jobs, plan, hash);
    }
  }

  lemma TargetsSpelled(state: SystemState, job: Job)
    requires ShellNames(state) && job in JobBag(state)
    ensures IsTarget(state, Resolve(job.path))
  {
    PathsSpelled("");
    if job in DatabaseJobs(state.databases, state.databases.Keys) {
      var name :| name in state.databases && job == DatabaseJob(state.databases, name);
      PathsSpelled(name);
    } else if job in CertificateJobs(state.certificates, state.certificates.Keys) {
      var name := CertificateNameOf(state, job);
      PathsSpelled(name);
    }
  }

  /** And nothing else is written, whatever fails. */
  lemma OthersKept(state: SystemState, fs: FileSystem, jobs: seq<Job>, loc: Location, plan: Plan, hash: Hash)
    requires ShellNames(state) && RunOrder(state, jobs) && !IsTarget(state, loc)
    ensures FileAt(RunJobs(fs, jobs, plan, hash), loc) == FileAt(fs, loc)
  {
    RunOrderBag(state, jobs);
    forall i | 0 <= i < |jobs|
      ensures Resolve(jobs[i].path) != loc
    {
      assert jobs[i] in multiset(jobs);
      TargetsSpelled(state, jobs[i]);
    }
    RunElsewhere(fs, jobs, loc, plan, hash);
  }

  lemma {:induction false} RunElsewhere(fs: FileSystem, jobs: seq<Job>, loc: Location, plan: Plan, hash: Hash)
    requires forall i | 0 <= i < |jobs| :: Resolve(jobs[i].path) != loc
    ensures FileAt(RunJobs(fs, jobs, plan, hash), loc) == FileAt(fs, loc)
    decreases |jobs|
  {
    if jobs != [] {
      SingleRestore(fs, jobs[0], plan, hash);
      RunElsewhere(Restored(fs, jobs[0], plan, hash), jobs[1..], loc, plan, hash);
    }
  }
}
