/** What deployments leave on the host, over any number of runs. */
module DeployRuns {
  import opened Wrappers
  import opened Text
  import opened Schema
  import opened Compose
  import HereDoc
  import opened Provisioner
  import SessionLog

  /** The compose file holds the generated document, up to surrounding white space. */
  predicate Holds(st: HostState, text: string) {
    UpToDate(CurrentText(st), text)
  }

  /** The events that a run has added. */
  ghost predicate WroteNothing(before: HostState, after: HostState) {
    && before.log <= after.log
    && forall i | |before.log| <= i < |after.log| :: !after.log[i].command.WriteCompose?
  }

  // ---------- one run ----------

  lemma {:induction false} QuietPlan(st: HostState, plan: seq<Command>, session: Session)
    requires forall i | 0 <= i < |plan| :: !plan[i].WriteCompose?
    ensures var (end, error) := RunAll(st, plan, session);
            end.compose == st.compose && WroteNothing(st, end)
    decreases |plan|
  {
    if plan != [] {
      QuietPlan(Step(st, plan[0], session), plan[1..], session);
    }
  }

  lemma QuietInstall(st: HostState, project: Project, session: Session)
    ensures var (end, error) := InstallWhen(st, false, project, session);
            end.compose == st.compose && WroteNothing(st, end)
  {
    QuietPlan(st, [MakeProjectDir, ReadCompose], session);
    var (read, error) := RunAll(st, [MakeProjectDir, ReadCompose], session);
    if error.None? {
      QuietPlan(read, StartPlan(false, project), session);
    }
  }

  /** The directory is made and the file is read. */
  predicate Reads(st: HostState, session: Session) {
    Ends(st, session).Works? && Ends(Step(st, MakeProjectDir, session), session).Works?
  }

  /** A run writes exactly when it gets as far as reading the file and what it hears is not the
      document. */
  lemma WritesExactly(st: HostState, project: Project, session: Session)
    ensures WroteNothing(st, Install(st, project, session).0)
       <==> UpToDate(HeardBy(st, session), project.text) || !Reads(st, session)
  {
    QuietInstall(st, project, session);
    QuietPlan(st, [MakeProjectDir, ReadCompose], session);
    InspectEnds(st, session);
    var (read, error) := RunAll(st, [MakeProjectDir, ReadCompose], session);
    if Reads(st, session) && !UpToDate(HeardBy(st, session), project.text) {
      WriteIssued(read, project, session);
      var end := Install(st, project, session).0;
      assert end.log[|read.log|].command.WriteCompose?;
    }
  }

  lemma InspectEnds(st: HostState, session: Session)
    ensures RunAll(st, [MakeProjectDir, ReadCompose], session).1.None? <==> Reads(st, session)
    ensures Reads(st, session) ==>
              RunAll(st, [MakeProjectDir, ReadCompose], session).0
              == Step(Step(st, MakeProjectDir, session), ReadCompose, session)
  {
    var plan := [MakeProjectDir, ReadCompose];
    assert plan[1..] == [ReadCompose] && [ReadCompose][1..] == [];
  }

  lemma WriteIssued(read: HostState, project: Project, session: Session)
    ensures var end := RunAll(read, StartPlan(true, project), session).0;
            |end.log| > |read.log| && end.log[|read.log|].command.WriteCompose?
  {
    var plan := StartPlan(true, project);
    assert plan[0..] == plan && plan[0].WriteCompose? && plan[2..] == [];
    RunOne(read, plan, 0, session);
    RunOne(Step(read, plan[0], session), plan, 1, session);
  }

  /** The read of this run returns the file. */
  predicate Truthful(st: HostState, session: Session) {
    session.misheard(|st.log| + 1).None?
  }

  ghost predicate TruthfulFrom(session: Session, start: nat) {
    forall k: nat | k >= start :: session.misheard(k).None?
  }

  /** A run over a file that already holds the document, and is read truthfully, writes nothing,
      however it ends. */
  lemma Idempotent(st: HostState, project: Project, session: Session)
    requires Holds(st, project.text) && Truthful(st, session)
    ensures var (end, error) := Install(st, project, session);
            end.compose == st.compose && WroteNothing(st, end)
  {
    QuietInstall(st, project, session);
  }

  /** A successful run that rewrites the file leaves what the shell made of the here-document. */
  lemma Rewritten(st: HostState, project: Project, session: Session)
    requires InstallWhen(st, true, project, session).1.None?
    ensures InstallWhen(st, true, project, session).0.compose
         == HereDoc.Written(COMPOSE_PATH, WriteCommand(project.text).script)
  {
    PathOneWord();
    HereDoc.WrittenIs(COMPOSE_PATH, project.text);
    var (read, error) := RunAll(st, [MakeProjectDir, ReadCompose], session);
    var plan := StartPlan(true, project);
    assert plan[1..] == [ComposeUp(project.scaleArgs)];
    var written := Step(read, plan[0], session);
    QuietPlan(written, plan[1..], session);
  }

  lemma PathOneWord()
    ensures HereDoc.PathWord(COMPOSE_PATH)
  {
  }

  /** What is written is the document up to white space exactly when no line of the document is
      the here-document delimiter. */
  lemma WrittenHolds(project: Project)
    requires project.text != "" && !IsSpace(project.text[0])
    ensures var written := HereDoc.Written(COMPOSE_PATH, HereDoc.Command(COMPOSE_PATH, project.text));
            written.Some? && (UpToDate(written.value, project.text) <==> HereDoc.Safe(project.text))
  {
    var text := project.text;
    PathOneWord();
    HereDoc.WrittenIs(COMPOSE_PATH, text);
    HereDoc.TransparentExactly(COMPOSE_PATH, text);
    if HereDoc.Safe(text) {
      TrimSpaceNewline(text);
    } else {
      HereDoc.CutOff(text);
      CutShort(text, HereDoc.Written(COMPOSE_PATH, HereDoc.Command(COMPOSE_PATH, text)).value);
    }
  }

  lemma CutShort(text: string, body: string)
    requires text != "" && !IsSpace(text[0])
    requires |body| + 3 <= |text| && body <= text && text[|body|..|body| + 3] == HereDoc.DELIMITER
    ensures !UpToDate(body, text)
  {
    assert text[|body| + 2] == text[|body|..|body| + 3][2] == 'F';
    TrimRightKeeps(text, |body| + 2);
    TrimRightPrefix(text);
    TrimRightPrefix(body);
    TrimLeftSuffix(TrimRight(body));
    assert TrimRight(text)[0] == text[0];
    assert |TrimSpace(text)| > |body|;
  }

  lemma GeneratedStart(services: seq<ServiceSpec>)
    ensures ProjectText(services) != "" && !IsSpace(ProjectText(services)[0])
  {
    var lines := PREAMBLE + ServicesLines(services);
    assert lines[0] == PREAMBLE[0];
    assert Unlines(lines) == lines[0] + "\n" + Unlines(lines[1..]);
  }

  /** After any successful deployment the file holds the document in one of two cases: it was
      taken to be there and was, or it was written and no line of it is the delimiter. */
  lemma Converges(st: HostState, services: seq<ServiceSpec>, session: Session)
    requires services != [] && Deploy(st, services, session).1.None?
    ensures Holds(Deploy(st, services, session).0, ProjectText(services))
       <==> if UpToDate(HeardBy(st, session), ProjectText(services)) then Holds(st, ProjectText(services))
            else HereDoc.Safe(ProjectText(services))
  {
    BuildText(services, 0);
    var project := Build(services).value;
    GeneratedStart(services);
    if UpToDate(HeardBy(st, session), project.text) {
      QuietInstall(st, project, session);
    } else {
      Rewritten(st, project, session);
      WrittenHolds(project);
    }
  }

  /** For services without line breaks a success leaves the document in place if the file was read
      truthfully, or held the document before: a misread costs a rewriting at most. */
  lemma OneLineConverges(st: HostState, services: seq<ServiceSpec>, session: Session)
    requires services != [] && Deploy(st, services, session).1.None?
    requires forall i | 0 <= i < |services| :: OneLineService(services[i])
    requires Truthful(st, session) || Holds(st, ProjectText(services))
    ensures Holds(Deploy(st, services, session).0, ProjectText(services))
  {
    HereDoc.GeneratedSafe(services);
    Converges(st, services, session);
  }

  // ---------- many runs ----------

  /** The host after a number of deployments of the same services in one session log. */
  ghost function Redeploy(st: HostState, services: seq<ServiceSpec>, runs: nat, session: Session): HostState {
    if runs == 0 then st
    else Deploy(Redeploy(st, services, runs - 1, session), services, session).0
  }

  /** Nothing was written, and the document is still in place. */
  ghost predicate Quiet(before: HostState, after: HostState, text: string) {
    after.compose == before.compose && WroteNothing(before, after) && Holds(after, text)
  }

  lemma QuietTransitive(a: HostState, b: HostState, c: HostState, text: string)
    requires Quiet(a, b, text) && Quiet(b, c, text)
    ensures Quiet(a, c, text)
  {
    WroteNothingTransitive(a, b, c);
  }

  lemma DeployQuiet(st: HostState, services: seq<ServiceSpec>, session: Session)
    requires Truthful(st, session)
    requires services != [] && Build(services).Success? && Holds(st, ProjectText(services))
    ensures Quiet(st, Deploy(st, services, session).0, ProjectText(services))
  {
    BuildText(services, 0);
    Idempotent(st, Build(services).value, session);
  }

  lemma WroteNothingTransitive(a: HostState, b: HostState, c: HostState)
    requires WroteNothing(a, b) && WroteNothing(b, c)
    ensures WroteNothing(a, c)
  {
    forall i | |a.log| <= i < |c.log|
      ensures !c.log[i].command.WriteCompose?
    {
      if i < |b.log| {
        assert c.log[i] == b.log[i];
      }
    }
  }

  lemma QuietStep(st: HostState, before: HostState, services: seq<ServiceSpec>, text: string, session: Session)
    requires services != [] && Build(services).Success? && text == ProjectText(services)
    requires Quiet(st, before, text) && Truthful(before, session)
    ensures Quiet(st, Deploy(before, services, session).0, text)
  {
    DeployQuiet(before, services, session);
    QuietTransitive(st, before, Deploy(before, services, session).0, text);
  }

  /** Once the file holds the document, no later run writes, however the commands end, as long as
      reads are truthful. */
  lemma {:induction false} StaysConverged(st: HostState, services: seq<ServiceSpec>, runs: nat, session: Session)
    requires services != [] && Build(services).Success? && Holds(st, ProjectText(services))
    requires TruthfulFrom(session, |st.log|)
    ensures Quiet(st, Redeploy(st, services, runs, session), ProjectText(services))
  {
    if runs > 0 {
      StaysConverged(st, services, runs - 1, session);
      QuietStep(st, Redeploy(st, services, runs - 1, session), services, ProjectText(services), session);
    }
  }

  /** One success is enough while reads are truthful: after it, any number of further runs, failing
      or not, leave the document in place and write nothing. */
  lemma ConvergesForGood(st: HostState, services: seq<ServiceSpec>, runs: nat, session: Session)
    requires services != [] && Deploy(st, services, session).1.None?
    requires forall i | 0 <= i < |services| :: OneLineService(services[i])
    requires TruthfulFrom(session, |st.log|)
    ensures var first := Deploy(st, services, session).0;
            Quiet(first, Redeploy(first, services, runs, session), ProjectText(services))
  {
    OneLineConverges(st, services, session);
    DeployGrows(st, services, session);
    StaysConverged(Deploy(st, services, session).0, services, runs, session);
  }

  lemma DeployGrows(st: HostState, services: seq<ServiceSpec>, session: Session)
    ensures |st.log| <= |Deploy(st, services, session).0.log|
  {
    if services != [] && Build(services).Success? {
      var project := Build(services).value;
      RunGrows(st, [MakeProjectDir, ReadCompose], session);
      var stale := !UpToDate(HeardBy(st, session), project.text);
      RunGrows(RunAll(st, [MakeProjectDir, ReadCompose], session).0, StartPlan(stale, project), session);
    }
  }

  lemma {:induction false} RunGrows(st: HostState, plan: seq<Command>, session: Session)
    ensures |st.log| <= |RunAll(st, plan, session).0.log|
    decreases |plan|
  {
    if plan != [] {
      RunGrows(Step(st, plan[0], session), plan[1..], session);
    }
  }

  /** The same, on the deploying program itself: it is free to read the env maps in a different
      order in each run. Even if the second read is misheard, a second success leaves the document
      in place. */
  method DeployTwice(host: Host, services: seq<ServiceSpec>) returns (first: Option<Error>, second: Option<Error>)
    requires services != []
    requires forall i | 0 <= i < |services| :: OneLineService(services[i])
    modifies host
    ensures first.None? && TruthfulFrom(host.session, |old(host.log)|) ==>
              var middle := Deploy(old(host.State()), services, host.session).0;
              Quiet(middle, host.State(), ProjectText(services))
    ensures first.None? && second.None? && Truthful(old(host.State()), host.session) ==>
              Holds(host.State(), ProjectText(services))
    ensures second.None? ==>
              && Build(services).Success? && host.log != []
              && host.log[|host.log| - 1] == Event(ComposeUp(Build(services).value.scaleArgs), true)
  {
    first := DeployServices(host, services);
    ghost var middle := host.State();
    second := DeployServices(host, services);
    if second.None? {
      SessionLog.SuccessStarts(middle, services, host.session);
    }
    if first.None? && Truthful(old(host.State()), host.session) {
      OneLineConverges(old(host.State()), services, host.session);
      if second.None? {
        OneLineConverges(middle, services, host.session);
      }
      if Truthful(middle, host.session) {
        DeployQuiet(middle, services, host.session);
      }
      DeployGrows(old(host.State()), services, host.session);
    }
  }
}
