/** The order of the firewall commands, at every point where provisioning may fail. */
module FirewallSafety {
  import opened Wrappers
  import Compose
  import opened Schema
  import opened Manifest
  import opened Provisioner
  import DeployRuns
  import SessionLog

  /** Ssh and every listed port have been allowed. */
  predicate Accessible(log: seq<Event>, fw: FirewallConfig) {
    && Event(AllowSSH, true) in log
    && forall port | port in fw.allowPorts :: Event(AllowPort(port), true) in log
  }

  /** Nothing has failed, except the look-up of docker, which installation makes good. */
  predicate Unbroken(log: seq<Event>) {
    forall event | event in log :: event.ok || event.command == FindDocker
  }

  predicate Deployment(command: Command) {
    command.MakeProjectDir? || command.ReadCompose? || command.WriteCompose? || command.ComposeUp?
  }

  /** The command may be issued after the events so far. */
  predicate Permitted(log: seq<Event>, command: Command, fw: FirewallConfig) {
    && (command == EnableFirewall ==> Accessible(log, fw) && Unbroken(log))
    && (Deployment(command) ==> Event(EnableFirewall, true) in log && Unbroken(log))
  }

  ghost predicate Safe(log: seq<Event>, fw: FirewallConfig) {
    forall i | 0 <= i < |log| :: Permitted(log[..i], log[i].command, fw)
  }

  lemma SafeSnoc(log: seq<Event>, event: Event, fw: FirewallConfig)
    requires Safe(log, fw) && Permitted(log, event.command, fw)
    ensures Safe(log + [event], fw)
  {
    var grown := log + [event];
    forall i | 0 <= i < |grown|
      ensures Permitted(grown[..i], grown[i].command, fw)
    {
      if i < |log| {
        assert grown[..i] == log[..i];
      } else {
        assert grown[..i] == log;
      }
    }
  }

  /** One command of the session: what it adds to the log, and when it was safe to issue. */
  lemma StepSafe(st: HostState, command: Command, session: Session, fw: FirewallConfig)
    requires Safe(st.log, fw) && Unbroken(st.log) && Permitted(st.log, command, fw)
    ensures var next := Step(st, command, session);
            && Safe(next.log, fw)
            && (forall event | event in st.log :: event in next.log)
            && Event(command, Ends(st, session).Works?) in next.log
            && (Ends(st, session).Works? || command == FindDocker ==> Unbroken(next.log))
  {
    SafeSnoc(st.log, Event(command, Ends(st, session).Works?), fw);
  }

  /** Ssh is allowed, and so are all ports but those still to be done. */
  ghost predicate Opening(st: HostState, left: seq<int>, fw: FirewallConfig) {
    && Safe(st.log, fw) && Unbroken(st.log) && Event(AllowSSH, true) in st.log
    && forall port | port in fw.allowPorts :: port in left || Event(AllowPort(port), true) in st.log
  }

  lemma PortStep(st: HostState, left: seq<int>, fw: FirewallConfig, session: Session)
    requires Opening(st, left, fw) && left != []
    ensures var next := Step(st, AllowPort(left[0]), session);
            Safe(next.log, fw) && (Ends(st, session).Works? ==> Opening(next, left[1..], fw))
  {
    StepSafe(st, AllowPort(left[0]), session, fw);
    assert forall port | port in left :: port == left[0] || port in left[1..];
  }

  lemma EnableStep(st: HostState, fw: FirewallConfig, session: Session)
    requires Opening(st, [], fw)
    ensures var (end, error) := RunAll(st, [EnableFirewall], session);
            && Safe(end.log, fw)
            && (error.None? ==> Unbroken(end.log) && Event(EnableFirewall, true) in end.log)
  {
    assert Accessible(st.log, fw);
    StepSafe(st, EnableFirewall, session, fw);
    RunFirst(st, EnableFirewall, [], session);
    assert [EnableFirewall] + [] == [EnableFirewall];
  }

  lemma PortsHead(ports: seq<int>)
    ensures PortCommands(ports) + [EnableFirewall] ==
            if ports == [] then [EnableFirewall]
            else [AllowPort(ports[0])] + (PortCommands(ports[1..]) + [EnableFirewall])
  {
  }

  /** Allowing the remaining ports and enabling the firewall. */
  lemma {:induction false} PortsSafe(st: HostState, ports: seq<int>, fw: FirewallConfig, session: Session)
    requires Opening(st, ports, fw)
    ensures var (end, error) := RunAll(st, PortCommands(ports) + [EnableFirewall], session);
            && Safe(end.log, fw)
            && (error.None? ==> Unbroken(end.log) && Event(EnableFirewall, true) in end.log)
    decreases |ports|
  {
    PortsHead(ports);
    if ports == [] {
      EnableStep(st, fw, session);
    } else {
      PortStep(st, ports, fw, session);
      RunFirst(st, AllowPort(ports[0]), PortCommands(ports[1..]) + [EnableFirewall], session);
      if Ends(st, session).Works? {
        PortsSafe(Step(st, AllowPort(ports[0]), session), ports[1..], fw, session);
      }
    }
  }

  lemma RunFirst(st: HostState, command: Command, others: seq<Command>, session: Session)
    ensures RunAll(st, [command] + others, session) ==
            if Ends(st, session).Breaks? then (Step(st, command, session), Some(CommandFailed(command)))
            else RunAll(Step(st, command, session), others, session)
  {
    assert ([command] + others)[1..] == others;
  }

  lemma HardeningSafe(st: HostState, fw: FirewallConfig, session: Session)
    requires fw.allowSSH
    requires Safe(st.log, fw) && Unbroken(st.log)
    ensures var (end, error) := Hardening(st, fw, session);
            && Safe(end.log, fw)
            && (error.None? ==> Unbroken(end.log) && Event(EnableFirewall, true) in end.log)
  {
    StepSafe(st, AllowSSH, session, fw);
    assert HardeningPlan(fw)[1..] == PortCommands(fw.allowPorts) + [EnableFirewall];
    if Ends(st, session).Works? {
      PortsSafe(Step(st, AllowSSH, session), fw.allowPorts, fw, session);
    }
  }

  lemma {:induction false} DeploymentSafe(st: HostState, plan: seq<Command>, fw: FirewallConfig, session: Session)
    requires Safe(st.log, fw) && Unbroken(st.log) && Event(EnableFirewall, true) in st.log
    requires forall i | 0 <= i < |plan| :: Deployment(plan[i])
    ensures var (end, error) := RunAll(st, plan, session);
            && Safe(end.log, fw)
            && (error.None? ==> Unbroken(end.log) && Event(EnableFirewall, true) in end.log)
    decreases |plan|
  {
    if plan != [] {
      StepSafe(st, plan[0], session, fw);
      if Ends(st, session).Works? {
        DeploymentSafe(Step(st, plan[0], session), plan[1..], fw, session);
      }
    }
  }

  lemma DeploySafe(st: HostState, services: seq<ServiceSpec>, fw: FirewallConfig, session: Session)
    requires Safe(st.log, fw) && Unbroken(st.log) && Event(EnableFirewall, true) in st.log
    ensures Safe(Deploy(st, services, session).0.log, fw)
  {
    if services != [] && Compose.Build(services).Success? {
      var project := Compose.Build(services).value;
      InstallSafe(st, !UpToDate(HeardBy(st, session), project.text), project, fw, session);
    }
  }

  lemma InstallSafe(st: HostState, stale: bool, project: Compose.Project, fw: FirewallConfig, session: Session)
    requires Safe(st.log, fw) && Unbroken(st.log) && Event(EnableFirewall, true) in st.log
    ensures Safe(InstallWhen(st, stale, project, session).0.log, fw)
  {
    DeploymentSafe(st, [MakeProjectDir, ReadCompose], fw, session);
    var (read, error) := RunAll(st, [MakeProjectDir, ReadCompose], session);
    if error.None? {
      DeploymentSafe(read, StartPlan(stale, project), fw, session);
    }
  }

  lemma DockerSafe(st: HostState, fw: FirewallConfig, session: Session)
    requires Safe(st.log, fw) && Unbroken(st.log)
    ensures var (end, error) := Docker(st, session);
            Safe(end.log, fw) && (error.None? ==> Unbroken(end.log))
  {
    StepSafe(st, FindDocker, session, fw);
    if Ends(st, session).Breaks? {
      StepSafe(Step(st, FindDocker, session), InstallDocker, session, fw);
    }
  }

  /** However the commands of a session end, the firewall is turned on only after ssh and every
      listed port were allowed and nothing failed, and nothing is deployed before it is on. */
  lemma ProvisionSafe(compose: Option<string>, fw: FirewallConfig, services: seq<ServiceSpec>, session: Session)
    requires fw.allowSSH || fw.backend != "ufw"
    ensures Safe(Provision(HostState(compose, []), fw, services, session).0.log, fw)
  {
    var start := HostState(compose, []);
    StepSafe(start, UpgradeSystem, session, fw);
    var (upgraded, e1) := RunAll(start, [UpgradeSystem], session);
    if e1.None? {
      DockerSafe(upgraded, fw, session);
      var (equipped, e2) := Docker(upgraded, session);
      if e2.None? {
        if fw.backend == "ufw" {
          HardeningSafe(equipped, fw, session);
        }
        var (hardened, e3) := Hardening(equipped, fw, session);
        if e3.None? {
          DeploySafe(hardened, services, fw, session);
        }
      }
    }
  }

  lemma {:induction false} AllWork(st: HostState, plan: seq<Command>, session: Session)
    requires forall k: nat :: session.ends(k) == Works
    ensures RunAll(st, plan, session).0.log
         == st.log + seq(|plan|, i requires 0 <= i < |plan| => Event(plan[i], true))
    decreases |plan|
  {
    if plan != [] {
      var next := Step(st, plan[0], session);
      AllWork(next, plan[1..], session);
      var events := seq(|plan|, i requires 0 <= i < |plan| => Event(plan[i], true));
      assert events == [Event(plan[0], true)] + events[1..];
      assert events[1..] == seq(|plan[1..]|, i requires 0 <= i < |plan[1..]| => Event(plan[1..][i], true));
    }
  }

  /** The access flag is what makes hardening safe: without it, a session in which every command
      works turns the firewall on over a host that has not let ssh in. */
  lemma WithoutFlagUnsafe(st: HostState, fw: FirewallConfig, session: Session)
    requires !fw.allowSSH && fw.backend == "ufw"
    requires Event(AllowSSH, true) !in st.log
    requires forall k: nat :: session.ends(k) == Works
    ensures !Safe(Hardening(st, fw, session).0.log, fw)
  {
    var plan := HardeningPlan(fw);
    AllWork(st, plan, session);
    var log := Hardening(st, fw, session).0.log;
    var i := |log| - 1;
    assert log[i].command == EnableFirewall;
    assert Event(AllowSSH, true) !in log[..i];
    assert !Permitted(log[..i], log[i].command, fw);
  }

  /** Hardening is safe in every session exactly when ssh access is asked for, has been given
      already, or the backend is one that is refused. */
  lemma HardeningSafeExactly(st: HostState, fw: FirewallConfig)
    requires Safe(st.log, fw) && Unbroken(st.log)
    ensures (forall session :: Safe(Hardening(st, fw, session).0.log, fw))
       <==> fw.allowSSH || fw.backend != "ufw" || Event(AllowSSH, true) in st.log
  {
    if !fw.allowSSH && fw.backend == "ufw" && Event(AllowSSH, true) !in st.log {
      var smooth := Session(k => Works, k => None);
      WithoutFlagUnsafe(st, fw, smooth);
    } else {
      forall session
        ensures Safe(Hardening(st, fw, session).0.log, fw)
      {
        if fw.allowSSH {
          HardeningSafe(st, fw, session);
        } else if fw.backend == "ufw" {
          assert HardeningPlan(fw) == PortCommands(fw.allowPorts) + [EnableFirewall];
          PortsSafe(st, fw.allowPorts, fw, session);
        }
      }
    }
  }

  lemma {:induction false} RunExtends(st: HostState, plan: seq<Command>, session: Session)
    ensures st.log <= RunAll(st, plan, session).0.log
    decreases |plan|
  {
    if plan != [] {
      RunExtends(Step(st, plan[0], session), plan[1..], session);
    }
  }

  lemma InstallExtends(st: HostState, stale: bool, project: Compose.Project, session: Session)
    ensures st.log <= InstallWhen(st, stale, project, session).0.log
  {
    RunExtends(st, [MakeProjectDir, ReadCompose], session);
    RunExtends(RunAll(st, [MakeProjectDir, ReadCompose], session).0, StartPlan(stale, project), session);
  }

  lemma DeployExtends(st: HostState, services: seq<ServiceSpec>, session: Session)
    ensures st.log <= Deploy(st, services, session).0.log
  {
    if services != [] && Compose.Build(services).Success? {
      var project := Compose.Build(services).value;
      InstallExtends(st, !UpToDate(HeardBy(st, session), project.text), project, session);
    }
  }

  lemma SafeBefore(log: seq<Event>, longer: seq<Event>, fw: FirewallConfig)
    requires log <= longer && Safe(longer, fw)
    ensures Safe(log, fw)
  {
    forall i | 0 <= i < |log|
      ensures Permitted(log[..i], log[i].command, fw)
    {
      assert log[..i] == longer[..i];
    }
  }

  /** The start of a session in which every command works. */
  lemma SmoothStart(compose: Option<string>, fw: FirewallConfig, services: seq<ServiceSpec>, session: Session)
    requires forall k: nat :: session.ends(k) == Works
    ensures var st := HostState(compose, [Event(UpgradeSystem, true), Event(FindDocker, true)]);
            Hardening(st, fw, session).0.log <= Provision(HostState(compose, []), fw, services, session).0.log
  {
    var start := HostState(compose, []);
    var upgraded := Step(start, UpgradeSystem, session);
    assert [UpgradeSystem][1..] == [];
    assert RunAll(start, [UpgradeSystem], session) == (upgraded, None);
    var equipped := Step(upgraded, FindDocker, session);
    assert equipped.log == [Event(UpgradeSystem, true), Event(FindDocker, true)];
    DeployExtends(Hardening(equipped, fw, session).0, services, session);
  }

  /** Provisioning a fresh session is safe, however the commands end, exactly when ssh access is
      asked for or the backend is one that is refused. */
  lemma ProvisionSafeExactly(compose: Option<string>, fw: FirewallConfig, services: seq<ServiceSpec>)
    ensures (forall session :: Safe(Provision(HostState(compose, []), fw, services, session).0.log, fw))
       <==> fw.allowSSH || fw.backend != "ufw"
  {
    if !fw.allowSSH && fw.backend == "ufw" {
      var smooth := Session(k => Works, k => None);
      var st := HostState(compose, [Event(UpgradeSystem, true), Event(FindDocker, true)]);
      SmoothStart(compose, fw, services, smooth);
      WithoutFlagUnsafe(st, fw, smooth);
      if Safe(Provision(HostState(compose, []), fw, services, smooth).0.log, fw) {
        SafeBefore(Hardening(st, fw, smooth).0.log, Provision(HostState(compose, []), fw, services, smooth).0.log, fw);
      }
    } else {
      forall session
        ensures Safe(Provision(HostState(compose, []), fw, services, session).0.log, fw)
      {
        ProvisionSafe(compose, fw, services, session);
      }
    }
  }

  /** What a success of the whole sequence means: the firewall is on, and the services are those of
      the deployment that the sequence ends with. */
  lemma ProvisionDone(compose: Option<string>, fw: FirewallConfig, services: seq<ServiceSpec>, session: Session)
    returns (hardened: HostState)
    requires fw.allowSSH
    requires Provision(HostState(compose, []), fw, services, session).1.None?
    ensures Provision(HostState(compose, []), fw, services, session) == Deploy(hardened, services, session)
    ensures Event(EnableFirewall, true) in Provision(HostState(compose, []), fw, services, session).0.log
  {
    var start := HostState(compose, []);
    StepSafe(start, UpgradeSystem, session, fw);
    var (upgraded, e1) := RunAll(start, [UpgradeSystem], session);
    DockerSafe(upgraded, fw, session);
    var (equipped, e2) := Docker(upgraded, session);
    HardeningSafe(equipped, fw, session);
    hardened := Hardening(equipped, fw, session).0;
    DeployExtends(hardened, services, session);
  }

  /** The land command: finish loading the manifest, then provision over a fresh session. When it is
      done, the firewall is on, the services have been started, and unless a read was misheard the
      compose file holds the document. */
  method Land(host: Host, m: NodeManifest) returns (done: bool)
    requires host.log == []
    modifies host, m
    ensures m.firewall == DefaultFirewall(old(m.firewall)) && m.services == DefaultServices(old(m.services))
    ensures Safe(host.log, m.firewall)
    ensures done ==> ValidNode(old(m.node)) && Event(EnableFirewall, true) in host.log
    ensures done && m.services != [] && DeployRuns.TruthfulFrom(host.session, 0)
            && (forall i | 0 <= i < |m.services| :: Compose.OneLineService(m.services[i]))
            ==> DeployRuns.Holds(host.State(), Compose.ProjectText(m.services))
    ensures done && m.services != [] ==>
              && Compose.Build(m.services).Success? && host.log != []
              && host.log[|host.log| - 1] == Event(ComposeUp(Compose.Build(m.services).value.scaleArgs), true)
    ensures !ValidNode(old(m.node)) ==> !done && host.log == []
  {
    var invalid := m.Finish();
    if invalid.Some? {
      return false;
    }
    ghost var compose := host.compose;
    var error := RunFullProvisioning(host, m);
    ProvisionSafe(compose, m.firewall, m.services, host.session);
    done := error.None?;
    if done {
      ghost var hardened := ProvisionDone(compose, m.firewall, m.services, host.session);
      if m.services != [] {
        SessionLog.SuccessStarts(hardened, m.services, host.session);
      }
      if m.services != [] && DeployRuns.TruthfulFrom(host.session, 0)
         && forall i | 0 <= i < |m.services| :: Compose.OneLineService(m.services[i])
      {
        DeployRuns.OneLineConverges(hardened, m.services, host.session);
      }
    }
  }
}
