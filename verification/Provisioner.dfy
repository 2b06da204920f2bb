/** Provisioning over an unreliable session: hardening, deployment and the sequence around
    them (internal/provisioner/hardening.go, services.go:16-66 and provisioner.go). */
module Provisioner {
  import opened Wrappers
  import opened Text
  import opened Schema
  import opened Compose
  import HereDoc
  import opened Manifest

  const COMPOSE_PATH := "/opt/ghost-ship/services/docker-compose.yml"

  datatype Command =
    | UpgradeSystem                      // sudo apt-get update && sudo apt-get upgrade -y
    | FindDocker                         // which docker
    | InstallDocker                      // curl -fsSL https://get.docker.com | sh
    | AllowSSH                           // sudo ufw allow ssh
    | AllowPort(port: int)               // sudo ufw allow <port>
    | EnableFirewall                     // sudo ufw --force enable
    | MakeProjectDir                     // mkdir -p <project dir>
    | ReadCompose                        // test -f <file> && cat <file> || true
    | WriteCompose(script: string)       // a here-document, see HereDoc.Command
    | ComposeUp(scaleArgs: seq<string>)  // docker compose up -d ... <scale args>

  datatype Event = Event(command: Command, ok: bool)

  /** How a command ends. One that fails may leave anything in the file it was writing. */
  datatype Outcome = Works | Breaks(residue: Option<string>)

  /** The compose file of the remote host and the commands issued to it so far. */
  datatype HostState = HostState(compose: Option<string>, log: seq<Event>)

  /** The adversary fixes how the k-th command of the session ends, and what it outputs in place of
      the compose file if it is a read of it. The read succeeds even if its cat fails, because it
      ends with "|| true". */
  datatype Session = Session(ends: nat -> Outcome, misheard: nat -> Option<string>)

  datatype Error =
    | CommandFailed(command: Command)
    | UnsupportedBackend(backend: string)
    | Rejected(reason: BuildError)

  function Ends(st: HostState, session: Session): Outcome {
    session.ends(|st.log|)
  }

  function Step(st: HostState, command: Command, session: Session): HostState {
    var end := Ends(st, session);
    var compose :=
      if command.WriteCompose?
      then match end
        case Works => (match HereDoc.Written(COMPOSE_PATH, command.script)
                       case Some(text) => Some(text)
                       case None => st.compose)
        case Breaks(residue) => residue
      else st.compose;
    HostState(compose, st.log + [Event(command, end.Works?)])
  }

  function CurrentText(st: HostState): string {
    match st.compose
    case Some(text) => text
    case None => ""
  }

  /** The output of reading the compose file. */
  function Heard(st: HostState, session: Session): string {
    match session.misheard(|st.log|)
    case Some(text) => text
    case None => CurrentText(st)
  }

  /** Issues commands in order, up to and including the first one that fails. */
  function RunAll(st: HostState, commands: seq<Command>, session: Session): (HostState, Option<Error>)
    decreases |commands|
  {
    if commands == [] then (st, None)
    else if Ends(st, session).Breaks? then
      (Step(st, commands[0], session), Some(CommandFailed(commands[0])))
    else RunAll(Step(st, commands[0], session), commands[1..], session)
  }

  /** One command of a plan. */
  lemma RunOne(st: HostState, plan: seq<Command>, k: nat, session: Session)
    requires k < |plan|
    ensures RunAll(st, plan[k..], session) ==
            if Ends(st, session).Breaks? then (Step(st, plan[k], session), Some(CommandFailed(plan[k])))
            else RunAll(Step(st, plan[k], session), plan[k + 1..], session)
  {
    assert plan[k..][1..] == plan[k + 1..];
  }

  // ---------- what the operations do to the host ----------

  function PortCommands(ports: seq<int>): seq<Command> {
    seq(|ports|, i requires 0 <= i < |ports| => AllowPort(ports[i]))
  }

  function HardeningPlan(fw: FirewallConfig): seq<Command> {
    (if fw.allowSSH then [AllowSSH] else []) + PortCommands(fw.allowPorts) + [EnableFirewall]
  }

  function Hardening(st: HostState, fw: FirewallConfig, session: Session): (HostState, Option<Error>) {
    if fw.backend != "ufw" then (st, Some(UnsupportedBackend(fw.backend)))
    else RunAll(st, HardeningPlan(fw), session)
  }

  predicate UpToDate(current: string, text: string) {
    TrimSpace(current) == TrimSpace(text)
  }

  function WriteCommand(text: string): Command {
    WriteCompose(HereDoc.Command(COMPOSE_PATH, text))
  }

  /** The commands after the file has been read, given whether it has to be rewritten. */
  function StartPlan(stale: bool, project: Project): seq<Command> {
    (if stale then [WriteCommand(project.text)] else []) + [ComposeUp(project.scaleArgs)]
  }

  function InstallWhen(st: HostState, stale: bool, project: Project, session: Session): (HostState, Option<Error>) {
    var (read, error) := RunAll(st, [MakeProjectDir, ReadCompose], session);
    if error.Some? then (read, error) else RunAll(read, StartPlan(stale, project), session)
  }

  /** What a deployment reads, once it has made the directory. */
  function HeardBy(st: HostState, session: Session): string {
    Heard(Step(st, MakeProjectDir, session), session)
  }

  function Install(st: HostState, project: Project, session: Session): (HostState, Option<Error>) {
    InstallWhen(st, !UpToDate(HeardBy(st, session), project.text), project, session)
  }

  ghost function Deploy(st: HostState, services: seq<ServiceSpec>, session: Session): (HostState, Option<Error>) {
    if services == [] then (st, None)
    else match Build(services)
      case Failure(reason) => (st, Some(Rejected(reason)))
      case Success(project) => Install(st, project, session)
  }

  function Docker(st: HostState, session: Session): (HostState, Option<Error>) {
    var found := Step(st, FindDocker, session);
    if Ends(st, session).Works? then (found, None) else RunAll(found, [InstallDocker], session)
  }

  ghost function Provision(st: HostState, fw: FirewallConfig, services: seq<ServiceSpec>, session: Session)
    : (HostState, Option<Error>)
  {
    var (upgraded, e1) := RunAll(st, [UpgradeSystem], session);
    if e1.Some? then (upgraded, e1)
    else
      var (equipped, e2) := Docker(upgraded, session);
      if e2.Some? then (equipped, e2)
      else
        var (hardened, e3) := Hardening(equipped, fw, session);
        if e3.Some? then (hardened, e3) else Deploy(hardened, services, session)
  }

  // ---------- the operations ----------

  class Host {
    const session: Session
    var compose: Option<string>
    var log: seq<Event>

    function State(): HostState
      reads this
    {
      HostState(compose, log)
    }

    constructor (session: Session, compose: Option<string>)
      ensures this.session == session && State() == HostState(compose, [])
    {
      this.session, this.compose, this.log := session, compose, [];
    }

    method Run(command: Command) returns (output: string, ok: bool)
      modifies this
      ensures State() == Step(old(State()), command, session)
      ensures ok == Ends(old(State()), session).Works?
      ensures ok && command == ReadCompose ==> output == Heard(old(State()), session)
    {
      var end := session.ends(|log|);
      ok := end.Works?;
      output := if command == ReadCompose then Heard(State(), session) else "";
      if command.WriteCompose? {
        match end {
          case Works =>
            var text := HereDoc.Written(COMPOSE_PATH, command.script);
            compose := if text.Some? then text else compose;
          case Breaks(residue) => compose := residue;
        }
      }
      log := log + [Event(command, ok)];
    }
  }

  method ApplyHardening(host: Host, fw: FirewallConfig) returns (error: Option<Error>)
    modifies host
    ensures (host.State(), error) == Hardening(old(host.State()), fw, host.session)
  {
    if fw.backend != "ufw" {
      return Some(UnsupportedBackend(fw.backend));
    }
    ghost var plan := HardeningPlan(fw);
    ghost var result := RunAll(host.State(), plan, host.session);
    ghost var first := if fw.allowSSH then 1 else 0;
    assert plan[0..] == plan;
    if fw.allowSSH {
      RunOne(host.State(), plan, 0, host.session);
      var _, sshAllowed := host.Run(AllowSSH);
      if !sshAllowed {
        return Some(CommandFailed(AllowSSH));
      }
    }
    for i := 0 to |fw.allowPorts|
      invariant result == RunAll(host.State(), plan[first + i..], host.session)
    {
      RunOne(host.State(), plan, first + i, host.session);
      var _, portAllowed := host.Run(AllowPort(fw.allowPorts[i]));
      if !portAllowed {
        return Some(CommandFailed(AllowPort(fw.allowPorts[i])));
      }
    }
    RunOne(host.State(), plan, first + |fw.allowPorts|, host.session);
    var _, enabled := host.Run(EnableFirewall);
    return if enabled then None else Some(CommandFailed(EnableFirewall));
  }

  /** The second half of DeployServices: write the file if it differs, then start the project. */
  method WriteAndStart(host: Host, project: Project, current: string) returns (error: Option<Error>)
    modifies host
    ensures (host.State(), error)
         == RunAll(old(host.State()), StartPlan(!UpToDate(current, project.text), project), host.session)
  {
    ghost var plan := StartPlan(!UpToDate(current, project.text), project);
    assert plan[0..] == plan;
    ghost var result := RunAll(host.State(), plan, host.session);
    if TrimSpace(current) != TrimSpace(project.text) {
      var script := HereDoc.Command(COMPOSE_PATH, project.text);
      RunOne(host.State(), plan, 0, host.session);
      var _, written := host.Run(WriteCompose(script));
      if !written {
        return Some(CommandFailed(WriteCompose(script)));
      }
    }
    assert result == RunAll(host.State(), plan[|plan| - 1..], host.session);
    RunOne(host.State(), plan, |plan| - 1, host.session);
    var _, started := host.Run(ComposeUp(project.scaleArgs));
    return if started then None else Some(CommandFailed(ComposeUp(project.scaleArgs)));
  }

  method DeployServices(host: Host, services: seq<ServiceSpec>) returns (error: Option<Error>)
    modifies host
    ensures (host.State(), error) == Deploy(old(host.State()), services, host.session)
  {
    if |services| == 0 {
      return None;
    }
    var built := BuildComposeProject(services);
    if built.Failure? {
      return Some(Rejected(built.error));
    }
    var project := built.value;

    ghost var inspect := [MakeProjectDir, ReadCompose];
    assert inspect[0..] == inspect;
    RunOne(host.State(), inspect, 0, host.session);
    var _, made := host.Run(MakeProjectDir);
    if !made {
      return Some(CommandFailed(MakeProjectDir));
    }
    RunOne(host.State(), inspect, 1, host.session);
    var current, read := host.Run(ReadCompose);
    if !read {
      return Some(CommandFailed(ReadCompose));
    }

    error := WriteAndStart(host, project, current);
  }

  method RunFullProvisioning(host: Host, m: NodeManifest) returns (error: Option<Error>)
    modifies host
    ensures (host.State(), error) == Provision(old(host.State()), m.firewall, m.services, host.session)
  {
    ghost var start := host.State();
    RunOne(start, [UpgradeSystem], 0, host.session);
    var _, upgraded := host.Run(UpgradeSystem);
    if !upgraded {
      return Some(CommandFailed(UpgradeSystem));
    }
    var _, found := host.Run(FindDocker);
    if !found {
      RunOne(host.State(), [InstallDocker], 0, host.session);
      var _, installed := host.Run(InstallDocker);
      if !installed {
        return Some(CommandFailed(InstallDocker));
      }
    }
    error := ApplyHardening(host, m.firewall);
    if error.Some? {
      return;
    }
    error := DeployServices(host, m.services);
  }
}
