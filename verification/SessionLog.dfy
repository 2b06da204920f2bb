/** What a session looks like from its log: which commands deployment and provisioning issue, in
    which order, and which of them a success answers for. */
module SessionLog {
  import opened Wrappers
  import opened Text
  import opened Schema
  import Compose
  import HereDoc
  import opened Provisioner

  function Succeeded(commands: seq<Command>): seq<Event> {
    seq(|commands|, i requires 0 <= i < |commands| => Event(commands[i], true))
  }

  /** The first k commands of a plan succeeded; if there are more, the next one was issued, failed
      and is the error. */
  predicate Issued(before: seq<Event>, after: seq<Event>, error: Option<Error>, plan: seq<Command>, k: nat)
    requires k <= |plan|
  {
    if k == |plan| then error == None && after == before + Succeeded(plan)
    else
      && error == Some(CommandFailed(plan[k]))
      && after == before + Succeeded(plan[..k]) + [Event(plan[k], false)]
  }

  lemma SucceededHead(plan: seq<Command>, k: nat)
    requires 0 < k <= |plan|
    ensures Succeeded(plan[..k]) == [Event(plan[0], true)] + Succeeded(plan[1..][..k - 1])
  {
  }

  /** A plan is issued in order, up to and including the first command that fails. */
  lemma {:induction false} PlanIssued(st: HostState, plan: seq<Command>, session: Session) returns (k: nat)
    ensures k <= |plan|
    ensures Issued(st.log, RunAll(st, plan, session).0.log, RunAll(st, plan, session).1, plan, k)
    decreases |plan|
  {
    if plan == [] {
      k := 0;
    } else if Ends(st, session).Breaks? {
      k := 0;
      assert Succeeded(plan[..0]) == [];
    } else {
      var others := PlanIssued(Step(st, plan[0], session), plan[1..], session);
      k := others + 1;
      SucceededHead(plan, k);
      assert plan[..|plan|] == plan && plan[1..][..|plan| - 1] == plan[1..];
    }
  }

  lemma {:induction false} RunBoth(st: HostState, a: seq<Command>, b: seq<Command>, session: Session)
    ensures RunAll(st, a + b, session) ==
              var (end, error) := RunAll(st, a, session);
              if error.Some? then (end, error) else RunAll(end, b, session)
    decreases |a|
  {
    if a == [] {
      assert a + b == b;
    } else {
      assert (a + b)[0] == a[0] && (a + b)[1..] == a[1..] + b;
      RunBoth(Step(st, a[0], session), a[1..], b, session);
    }
  }

  // ---------- deployment ----------

  /** The write command, spelled out. */
  function WriteScript(text: string): string {
    "cat > " + "/opt/ghost-ship/services/docker-compose.yml" + " << 'EOF'" + "\n" + text + "\n" + "EOF"
  }

  /** What a deployment is to do, given what it reads. */
  function DeployPlan(heard: string, project: Compose.Project): seq<Command> {
    [MakeProjectDir, ReadCompose]
    + (if TrimSpace(heard) != TrimSpace(project.text) then [WriteCompose(WriteScript(project.text))] else [])
    + [ComposeUp(project.scaleArgs)]
  }

  lemma ScriptSpelled(text: string)
    ensures HereDoc.Command(COMPOSE_PATH, text) == WriteScript(text)
  {
  }

  lemma DeployPlanned(st: HostState, services: seq<ServiceSpec>, session: Session)
    requires services != [] && Compose.Build(services).Success?
    ensures var plan := DeployPlan(HeardBy(st, session), Compose.Build(services).value);
            Deploy(st, services, session) == RunAll(st, plan, session)
  {
    var project := Compose.Build(services).value;
    ScriptSpelled(project.text);
    var stale := !UpToDate(HeardBy(st, session), project.text);
    RunBoth(st, [MakeProjectDir, ReadCompose], StartPlan(stale, project), session);
    assert DeployPlan(HeardBy(st, session), project) == [MakeProjectDir, ReadCompose] + StartPlan(stale, project);
  }

  /** A deployment issues its commands in order, up to the first one that fails, which is its
      error. It succeeds exactly when all of them do: when the directory was made, the file read,
      written if what was read differs, and the project started with the scale arguments. */
  lemma DeployIssued(st: HostState, services: seq<ServiceSpec>, session: Session)
    ensures var (end, error) := Deploy(st, services, session);
            if services == [] then end == st && error == None
            else match Compose.Build(services)
              case Failure(reason) => end == st && error == Some(Rejected(reason))
              case Success(project) =>
                var plan := DeployPlan(HeardBy(st, session), project);
                exists k | 0 <= k <= |plan| :: Issued(st.log, end.log, error, plan, k)
  {
    if services != [] && Compose.Build(services).Success? {
      DeployPlanned(st, services, session);
      var k := PlanIssued(st, DeployPlan(HeardBy(st, session), Compose.Build(services).value), session);
    }
  }

  /** After a success the last command started the project, and it worked; no success leaves a
      failed command behind. */
  lemma SuccessStarts(st: HostState, services: seq<ServiceSpec>, session: Session)
    requires services != [] && Deploy(st, services, session).1.None?
    ensures Compose.Build(services).Success?
    ensures var log := Deploy(st, services, session).0.log;
            && |log| > |st.log| && log[|log| - 1] == Event(ComposeUp(Compose.Build(services).value.scaleArgs), true)
            && log == st.log + Succeeded(DeployPlan(HeardBy(st, session), Compose.Build(services).value))
            && (forall i | |st.log| <= i < |log| :: log[i].ok)
  {
    DeployIssued(st, services, session);
  }

  // ---------- provisioning ----------

  /** The firewall commands, spelled out. */
  function FirewallPlan(fw: FirewallConfig): seq<Command> {
    (if fw.allowSSH then [AllowSSH] else [])
    + seq(|fw.allowPorts|, i requires 0 <= i < |fw.allowPorts| => AllowPort(fw.allowPorts[i]))
    + [EnableFirewall]
  }

  lemma HardeningIssued(st: HostState, fw: FirewallConfig, session: Session)
    ensures var (end, error) := Hardening(st, fw, session);
            if fw.backend != "ufw" then end == st && error == Some(UnsupportedBackend(fw.backend))
            else exists k | 0 <= k <= |FirewallPlan(fw)| :: Issued(st.log, end.log, error, FirewallPlan(fw), k)
  {
    if fw.backend == "ufw" {
      assert FirewallPlan(fw) == HardeningPlan(fw);
      var k := PlanIssued(st, FirewallPlan(fw), session);
      assert Issued(st.log, Hardening(st, fw, session).0.log, Hardening(st, fw, session).1, FirewallPlan(fw), k);
    }
  }

  /** The look-up of docker, and its installation exactly when it is not found. */
  lemma DockerIssued(st: HostState, session: Session)
    ensures var (end, error) := Docker(st, session);
            var found := Ends(st, session).Works?;
            if found then error == None && end.log == st.log + [Event(FindDocker, true)]
            else
              var installed := session.ends(|st.log| + 1).Works?;
              && end.log == st.log + [Event(FindDocker, false), Event(InstallDocker, installed)]
              && error == if installed then None else Some(CommandFailed(InstallDocker))
  {
    var next := Step(st, FindDocker, session);
    assert [InstallDocker][1..] == [];
    assert Ends(next, session) == session.ends(|st.log| + 1);
  }

  /** The log of a successful provisioning up to the deployment: update, docker, firewall. */
  function Prepared(found: bool, fw: FirewallConfig): seq<Event> {
    [Event(UpgradeSystem, true), Event(FindDocker, found)]
    + (if found then [] else [Event(InstallDocker, true)])
    + Succeeded(FirewallPlan(fw))
  }

  /** A successful provisioning of a fresh session has updated the system, found or installed
      docker, set up the firewall with the supported backend, and deployed, in this order. */
  lemma ProvisionIssued(compose: Option<string>, fw: FirewallConfig, services: seq<ServiceSpec>, session: Session)
    returns (found: bool, hardened: HostState)
    requires Provision(HostState(compose, []), fw, services, session).1.None?
    ensures found <==> session.ends(1).Works?
    ensures fw.backend == "ufw" && hardened == HostState(compose, Prepared(found, fw))
    ensures Provision(HostState(compose, []), fw, services, session) == Deploy(hardened, services, session)
  {
    var start := HostState(compose, []);
    var upgraded := Step(start, UpgradeSystem, session);
    assert [UpgradeSystem][1..] == [];
    assert RunAll(start, [UpgradeSystem], session) == (upgraded, None);
    found := Ends(upgraded, session).Works?;
    DockerIssued(upgraded, session);
    var equipped := Docker(upgraded, session).0;
    HardeningIssued(equipped, fw, session);
    hardened := Hardening(equipped, fw, session).0;
    KeepsCompose(equipped, HardeningPlan(fw), session);
    assert hardened.log == Prepared(found, fw);
  }

  lemma {:induction false} KeepsCompose(st: HostState, plan: seq<Command>, session: Session)
    requires forall i | 0 <= i < |plan| :: !plan[i].WriteCompose?
    ensures RunAll(st, plan, session).0.compose == st.compose
    decreases |plan|
  {
    if plan != [] {
      KeepsCompose(Step(st, plan[0], session), plan[1..], session);
    }
  }

  /** A host on which docker is not found is given it next, whatever happens afterwards. */
  lemma DockerInstalled(compose: Option<string>, fw: FirewallConfig, services: seq<ServiceSpec>, session: Session)
    ensures var log := Provision(HostState(compose, []), fw, services, session).0.log;
            && |log| >= 1 && log[0] == Event(UpgradeSystem, session.ends(0).Works?)
            && (session.ends(0).Works? ==> |log| >= 2 && log[1] == Event(FindDocker, session.ends(1).Works?))
            && (session.ends(0).Works? && session.ends(1).Breaks? ==>
                  |log| >= 3 && log[2] == Event(InstallDocker, session.ends(2).Works?))
  {
    var start := HostState(compose, []);
    var upgraded := Step(start, UpgradeSystem, session);
    assert [UpgradeSystem][1..] == [];
    if Ends(start, session).Works? {
      assert RunAll(start, [UpgradeSystem], session) == (upgraded, None);
      DockerIssued(upgraded, session);
      var equipped := Docker(upgraded, session);
      if equipped.1.None? {
        HardeningGrows(equipped.0, fw, session);
        DeployGrows(Hardening(equipped.0, fw, session).0, services, session);
      }
    }
  }

  lemma HardeningGrows(st: HostState, fw: FirewallConfig, session: Session)
    ensures st.log <= Hardening(st, fw, session).0.log
  {
    HardeningIssued(st, fw, session);
  }

  lemma DeployGrows(st: HostState, services: seq<ServiceSpec>, session: Session)
    ensures st.log <= Deploy(st, services, session).0.log
  {
    DeployIssued(st, services, session);
  }
}
