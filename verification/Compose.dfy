/** Generation of the docker compose document (internal/provisioner/services.go:68-144). */
module Compose {
  import opened Wrappers
  import opened Text
  import opened Schema

  datatype BuildError =
    | NameRequired
    | ImageRequired(name: string)
    | DuplicateName(name: string)
    | PortsWhileScaling(name: string)

  datatype Project = Project(text: string, scaleArgs: seq<string>)

  // ---------- the document, line by line ----------

  /** The keys of an env map in the order in which they are printed. */
  ghost function SortedKeys(keys: set<string>): (r: seq<string>)
    ensures Sorted(r) && multiset(r) == multiset(keys)
  {
    if keys == {} then []
    else
      var k :| k in keys;
      InsertSorts(k, SortedKeys(keys - {k}));
      Insert(k, SortedKeys(keys - {k}))
  }

  function EnvItem(key: string, value: string): string {
    key + ": \"" + value + "\""
  }

  function EnvItems(keys: seq<string>, env: map<string, string>): seq<string>
    requires forall k | k in keys :: k in env
  {
    seq(|keys|, i requires 0 <= i < |keys| => EnvItem(keys[i], env[keys[i]]))
  }

  function VolumeItem(volume: string): string {
    "- " + volume
  }

  function VolumeItems(volumes: seq<string>): seq<string> {
    seq(|volumes|, i requires 0 <= i < |volumes| => VolumeItem(volumes[i]))
  }

  function PortText(port: PortMapping): string {
    Decimal(port.host) + ":" + Decimal(port.container)
    + if TrimSpace(port.protocol) != "" then "/" + port.protocol else ""
  }

  function PortItem(mapping: string): string {
    "- \"" + mapping + "\""
  }

  function PortItems(ports: seq<PortMapping>): seq<string> {
    seq(|ports|, i requires 0 <= i < |ports| => PortItem(PortText(ports[i])))
  }

  function Indented(item: string): string {
    "      " + item
  }

  function IndentAll(items: seq<string>): seq<string> {
    seq(|items|, i requires 0 <= i < |items| => Indented(items[i]))
  }

  /** An optional section: absent when it has no items. */
  function Section(title: string, items: seq<string>): seq<string> {
    if items == [] then [] else [title] + IndentAll(items)
  }

  function NameLine(name: string): string {
    "  " + name + ":"
  }

  function ImageLine(image: string): string {
    "    image: " + image
  }

  function MemoryLine(memoryMB: int): string {
    "    mem_limit: " + Decimal(memoryMB) + "m"
  }

  const RESTART_LINE := "    restart: unless-stopped"
  const ENV_TITLE := "    environment:"
  const VOLUMES_TITLE := "    volumes:"
  const PORTS_TITLE := "    ports:"

  function HeadLines(service: ServiceSpec): seq<string> {
    [NameLine(service.name), ImageLine(service.image), RESTART_LINE]
  }

  function MemoryLines(memoryMB: int): seq<string> {
    if memoryMB > 0 then [MemoryLine(memoryMB)] else []
  }

  ghost function EnvSection(env: map<string, string>): seq<string> {
    var keys := SortedKeys(env.Keys);
    KeysInMap(keys, env);
    Section(ENV_TITLE, EnvItems(keys, env))
  }

  lemma KeysInMap(keys: seq<string>, env: map<string, string>)
    requires multiset(keys) == multiset(env.Keys)
    ensures forall k :: k in keys <==> k in env
  {
    forall k ensures k in keys <==> k in env {
      assert k in keys <==> k in multiset(keys);
    }
  }

  ghost function ServiceLines(service: ServiceSpec): seq<string> {
    HeadLines(service)
    + MemoryLines(service.memoryMB)
    + EnvSection(service.env)
    + Section(VOLUMES_TITLE, VolumeItems(service.volumes))
    + Section(PORTS_TITLE, PortItems(service.ports))
  }

  ghost function FlatMap<T>(f: T -> seq<string>, items: seq<T>): seq<string> {
    if items == [] then [] else FlatMap(f, items[..|items| - 1]) + f(items[|items| - 1])
  }

  lemma FlatMapSnoc<T>(f: T -> seq<string>, items: seq<T>, i: nat)
    requires i < |items|
    ensures FlatMap(f, items[..i + 1]) == FlatMap(f, items[..i]) + f(items[i])
  {
    assert items[..i + 1][..i] == items[..i];
  }

  lemma {:induction false} FlatMapHead<T>(f: T -> seq<string>, items: seq<T>)
    requires items != []
    ensures FlatMap(f, items) == f(items[0]) + FlatMap(f, items[1..])
  {
    var last := |items| - 1;
    if last == 0 {
      assert items[..0] == [] && items[1..] == [];
    } else {
      FlatMapHead(f, items[..last]);
      var middle := items[1..last];
      assert items[..last][1..] == middle && items[1..][..last - 1] == middle;
      FlatMapSnoc(f, items[1..], last - 1);
      assert items[1..][..last] == items[1..];
      Regroup(f(items[0]), FlatMap(f, middle), f(items[last]));
    }
  }

  ghost function ServicesLines(services: seq<ServiceSpec>): seq<string> {
    FlatMap(ServiceLines, services)
  }

  const PREAMBLE: seq<string> := ["version: '3.9'", "services:"]

  ghost function ProjectText(services: seq<ServiceSpec>): string {
    Unlines(PREAMBLE + ServicesLines(services))
  }

  // ---------- validation and scaling ----------

  predicate Scaled(service: ServiceSpec) {
    service.count > 1
  }

  /** What is wrong with a service, given the names that are already taken. */
  function Fault(s: ServiceSpec, taken: set<string>): Option<BuildError> {
    if s.name == "" then Some(NameRequired)
    else if s.image == "" then Some(ImageRequired(s.name))
    else if s.name in taken then Some(DuplicateName(s.name))
    else if Scaled(s) && s.ports != [] then Some(PortsWhileScaling(s.name))
    else None
  }

  function Names(services: seq<ServiceSpec>): set<string> {
    set i | 0 <= i < |services| :: services[i].name
  }

  /** What is wrong with the i-th service, given the ones before it. */
  function Offence(services: seq<ServiceSpec>, i: nat): Option<BuildError>
    requires i < |services|
  {
    Fault(services[i], Names(services[..i]))
  }

  /** The conditions under which a list of services is accepted. */
  predicate Acceptable(services: seq<ServiceSpec>) {
    && (forall i | 0 <= i < |services| :: services[i].name != "" && services[i].image != "")
    && (forall i, j | 0 <= i < j < |services| :: services[i].name != services[j].name)
    && (forall i | 0 <= i < |services| :: !(services[i].count > 1 && services[i].ports != []))
  }

  function ScaleArg(service: ServiceSpec): string {
    "--scale " + service.name + "=" + Decimal(service.count)
  }

  function ScaleArgs(services: seq<ServiceSpec>): seq<string> {
    if services == [] then []
    else
      var last := services[|services| - 1];
      ScaleArgs(services[..|services| - 1]) + if Scaled(last) then [ScaleArg(last)] else []
  }

  /** What generation yields: the first offence from the i-th service on, or the project. */
  ghost function BuildFrom(services: seq<ServiceSpec>, i: nat): Result<Project, BuildError>
    requires i <= |services|
    decreases |services| - i
  {
    if i == |services| then Success(Project(ProjectText(services), SortStrings(ScaleArgs(services))))
    else match Offence(services, i)
      case Some(error) => Failure(error)
      case None => BuildFrom(services, i + 1)
  }

  ghost function Build(services: seq<ServiceSpec>): Result<Project, BuildError> {
    BuildFrom(services, 0)
  }

  /** strings.Builder. Every string the generator appends is one whole line. */
  class Builder {
    var text: string
    ghost var lines: seq<string>

    ghost predicate Valid()
      reads this
    {
      text == Unlines(lines)
    }

    constructor ()
      ensures Valid() && lines == []
    {
      text := "";
      lines := [];
    }

    method WriteLine(line: string)
      requires Valid()
      modifies this
      ensures Valid() && lines == old(lines) + [line]
    {
      UnlinesConcat(lines, [line]);
      assert Unlines([line]) == line + "\n";
      text := text + (line + "\n");
      lines := lines + [line];
    }
  }

  lemma Grow(start: seq<string>, title: string, items: seq<string>, i: nat)
    requires i < |items|
    ensures start + ([title] + IndentAll(items[..i])) + [Indented(items[i])]
         == start + ([title] + IndentAll(items[..i + 1]))
  {
    assert IndentAll(items[..i + 1]) == IndentAll(items[..i]) + [Indented(items[i])];
  }

  lemma Regroup(a: seq<string>, b: seq<string>, c: seq<string>)
    ensures (a + b) + c == a + (b + c)
  {
  }

  /** Collects the keys of the map in an order that the program does not control, and sorts
      them: the result does not depend on that order. */
  method CollectKeys(env: map<string, string>) returns (keys: seq<string>)
    ensures keys == SortedKeys(env.Keys)
  {
    keys := [];
    var unread := env.Keys;
    while unread != {}
      invariant unread <= env.Keys
      invariant multiset(keys) == multiset(env.Keys - unread)
      decreases |unread|
    {
      var key :| key in unread;
      assert env.Keys - (unread - {key}) == (env.Keys - unread) + {key};
      keys := keys + [key];
      unread := unread - {key};
    }
    assert env.Keys - unread == env.Keys;
    keys := SortStrings(keys);
    SortedUnique(keys, SortedKeys(env.Keys));
  }

  method WriteEnvironment(builder: Builder, env: map<string, string>)
    requires builder.Valid()
    modifies builder
    ensures builder.Valid() && builder.lines == old(builder.lines) + EnvSection(env)
  {
    if env != map[] {
      ghost var start := builder.lines;
      builder.WriteLine(ENV_TITLE);
      var keys := CollectKeys(env);
      KeysInMap(keys, env);
      ghost var items := EnvItems(keys, env);
      for i := 0 to |keys|
        invariant builder.Valid()
        invariant builder.lines == start + ([ENV_TITLE] + IndentAll(items[..i]))
      {
        builder.WriteLine(Indented(EnvItem(keys[i], env[keys[i]])));
        Grow(start, ENV_TITLE, items, i);
      }
      assert items[..|keys|] == items;
      KeysNonEmpty(keys, env);
    }
  }

  lemma KeysNonEmpty(keys: seq<string>, env: map<string, string>)
    requires forall k :: k in keys <==> k in env
    requires env != map[]
    ensures keys != []
  {
    assert env.Keys != {};
    var k :| k in env;
  }

  method WriteVolumes(builder: Builder, volumes: seq<string>)
    requires builder.Valid()
    modifies builder
    ensures builder.Valid()
    ensures builder.lines == old(builder.lines) + Section(VOLUMES_TITLE, VolumeItems(volumes))
  {
    if |volumes| > 0 {
      ghost var start := builder.lines;
      builder.WriteLine(VOLUMES_TITLE);
      ghost var items := VolumeItems(volumes);
      for i := 0 to |volumes|
        invariant builder.Valid()
        invariant builder.lines == start + ([VOLUMES_TITLE] + IndentAll(items[..i]))
      {
        builder.WriteLine(Indented(VolumeItem(volumes[i])));
        Grow(start, VOLUMES_TITLE, items, i);
      }
      assert items[..|volumes|] == items;
    }
  }

  method WritePorts(builder: Builder, ports: seq<PortMapping>)
    requires builder.Valid()
    modifies builder
    ensures builder.Valid()
    ensures builder.lines == old(builder.lines) + Section(PORTS_TITLE, PortItems(ports))
  {
    if |ports| > 0 {
      ghost var start := builder.lines;
      builder.WriteLine(PORTS_TITLE);
      ghost var items := PortItems(ports);
      for i := 0 to |ports|
        invariant builder.Valid()
        invariant builder.lines == start + ([PORTS_TITLE] + IndentAll(items[..i]))
      {
        var mapping := Decimal(ports[i].host) + ":" + Decimal(ports[i].container);
        if TrimSpace(ports[i].protocol) != "" {
          mapping := mapping + "/" + ports[i].protocol;
        }
        PortTextIs(ports[i], mapping);
        builder.WriteLine(Indented(PortItem(mapping)));
        Grow(start, PORTS_TITLE, items, i);
      }
      assert items[..|ports|] == items;
    }
  }

  lemma PortTextIs(port: PortMapping, mapping: string)
    requires mapping == if TrimSpace(port.protocol) != ""
                        then Decimal(port.host) + ":" + Decimal(port.container) + "/" + port.protocol
                        else Decimal(port.host) + ":" + Decimal(port.container)
    ensures mapping == PortText(port)
  {
  }

  lemma SectionsRegroup(start: seq<string>, service: ServiceSpec)
    ensures start + (HeadLines(service) + MemoryLines(service.memoryMB))
            + EnvSection(service.env)
            + Section(VOLUMES_TITLE, VolumeItems(service.volumes))
            + Section(PORTS_TITLE, PortItems(service.ports))
            == start + ServiceLines(service)
  {
    var head := HeadLines(service) + MemoryLines(service.memoryMB);
    var env := EnvSection(service.env);
    var volumes := Section(VOLUMES_TITLE, VolumeItems(service.volumes));
    Regroup(start, head, env);
    Regroup(start, head + env, volumes);
    Regroup(start, head + env + volumes, Section(PORTS_TITLE, PortItems(service.ports)));
  }

  method WriteComposeService(builder: Builder, service: ServiceSpec)
    requires builder.Valid()
    modifies builder
    ensures builder.Valid() && builder.lines == old(builder.lines) + ServiceLines(service)
  {
    builder.WriteLine(NameLine(service.name));
    builder.WriteLine(ImageLine(service.image));
    builder.WriteLine(RESTART_LINE);
    assert builder.lines == old(builder.lines) + HeadLines(service);
    if service.memoryMB > 0 {
      builder.WriteLine(MemoryLine(service.memoryMB));
    }
    assert builder.lines == old(builder.lines) + (HeadLines(service) + MemoryLines(service.memoryMB));
    WriteEnvironment(builder, service.env);
    WriteVolumes(builder, service.volumes);
    WritePorts(builder, service.ports);
    SectionsRegroup(old(builder.lines), service);
  }

  lemma ServicesStep(services: seq<ServiceSpec>, i: nat)
    requires i < |services|
    ensures PREAMBLE + ServicesLines(services[..i + 1])
         == PREAMBLE + ServicesLines(services[..i]) + ServiceLines(services[i])
    ensures Names(services[..i + 1]) == Names(services[..i]) + {services[i].name}
    ensures ScaleArgs(services[..i + 1])
         == ScaleArgs(services[..i]) + if Scaled(services[i]) then [ScaleArg(services[i])] else []
  {
    assert services[..i + 1][..i] == services[..i];
    assert services[..i + 1] == services[..i] + [services[i]];
    Regroup(PREAMBLE, ServicesLines(services[..i]), ServiceLines(services[i]));
  }

  lemma BuildStep(services: seq<ServiceSpec>, i: nat)
    requires i < |services|
    ensures BuildFrom(services, i) ==
            match Offence(services, i)
            case Some(error) => Failure(error)
            case None => BuildFrom(services, i + 1)
  {
  }

  /** buildComposeProject */
  method BuildComposeProject(services: seq<ServiceSpec>) returns (r: Result<Project, BuildError>)
    ensures r == Build(services)
  {
    var builder := new Builder();
    builder.WriteLine("version: '3.9'");
    builder.WriteLine("services:");

    var seen: set<string> := {};
    var scaleArgs: seq<string> := [];
    for i := 0 to |services|
      invariant seen == Names(services[..i])
      invariant builder.Valid() && fresh(builder)
      invariant builder.lines == PREAMBLE + ServicesLines(services[..i])
      invariant scaleArgs == ScaleArgs(services[..i])
      invariant Build(services) == BuildFrom(services, i)
    {
      var service := services[i];
      BuildStep(services, i);
      if service.name == "" {
        return Failure(NameRequired);
      }
      if service.image == "" {
        return Failure(ImageRequired(service.name));
      }
      if service.name in seen {
        return Failure(DuplicateName(service.name));
      }
      seen := seen + {service.name};

      var count := if service.count < 1 then 1 else service.count;
      if count > 1 && |service.ports| > 0 {
        return Failure(PortsWhileScaling(service.name));
      }
      if count > 1 {
        scaleArgs := scaleArgs + [ScaleArg(service.(count := count))];
      }
      WriteComposeService(builder, service);
      ServicesStep(services, i);
    }
    assert services[..|services|] == services;
    r := Success(Project(builder.text, SortStrings(scaleArgs)));
  }

  // ---------- what generation promises ----------

  /** Validation is exact, and an error names the first offending service. */
  lemma {:induction false} ValidationFrom(services: seq<ServiceSpec>, i: nat)
    requires i <= |services|
    requires forall j | 0 <= j < i :: Offence(services, j).None?
    ensures Build(services) == BuildFrom(services, i) ==>
            && (Build(services).Success? <==> forall j | 0 <= j < |services| :: Offence(services, j).None?)
            && (Build(services).Failure? ==>
                exists k | 0 <= k < |services| ::
                  && Offence(services, k) == Some(Build(services).error)
                  && forall j | 0 <= j < k :: Offence(services, j).None?)
    decreases |services| - i
  {
    if i < |services| && Offence(services, i).None? {
      ValidationFrom(services, i + 1);
    }
  }

  lemma OffenceFree(services: seq<ServiceSpec>)
    ensures (forall j | 0 <= j < |services| :: Offence(services, j).None?) <==> Acceptable(services)
  {
    if forall j | 0 <= j < |services| :: Offence(services, j).None? {
      forall i, j | 0 <= i < j < |services|
        ensures services[i].name != services[j].name
      {
        assert Offence(services, j).None?;
      }
      forall i | 0 <= i < |services|
        ensures services[i].name != "" && services[i].image != ""
        ensures !(services[i].count > 1 && services[i].ports != [])
      {
        assert Offence(services, i).None?;
      }
    }
  }

  /** What an error says about the k-th service. */
  predicate Blamed(services: seq<ServiceSpec>, k: nat, error: BuildError)
    requires k < |services|
  {
    var s := services[k];
    var known := exists j | 0 <= j < k :: services[j].name == s.name;
    match error
    case NameRequired => s.name == ""
    case ImageRequired(name) => name == s.name && s.name != "" && s.image == ""
    case DuplicateName(name) => name == s.name && s.name != "" && s.image != "" && known
    case PortsWhileScaling(name) =>
      name == s.name && s.name != "" && s.image != "" && !known && s.count > 1 && s.ports != []
  }

  lemma ValidationExact(services: seq<ServiceSpec>)
    ensures Build(services).Success? <==> Acceptable(services)
    ensures Build(services).Failure? ==>
              exists k | 0 <= k < |services| ::
                Acceptable(services[..k]) && Blamed(services, k, Build(services).error)
  {
    ValidationFrom(services, 0);
    OffenceFree(services);
    if Build(services).Failure? {
      var k :| && 0 <= k < |services| && Offence(services, k) == Some(Build(services).error)
               && forall j | 0 <= j < k :: Offence(services, j).None?;
      forall j | 0 <= j < k
        ensures Offence(services[..k], j).None?
      {
        assert services[..k][..j] == services[..j];
        assert Offence(services, j).None?;
      }
      OffenceFree(services[..k]);
      OffenceBlames(services, k);
    }
  }

  lemma OffenceBlames(services: seq<ServiceSpec>, k: nat)
    requires k < |services| && Offence(services, k).Some?
    ensures Blamed(services, k, Offence(services, k).value)
  {
    var name := services[k].name;
    assert name in Names(services[..k]) <==> exists j | 0 <= j < k :: services[j].name == name by {
      if name in Names(services[..k]) {
        var j :| 0 <= j < k && services[..k][j].name == name;
        assert services[j].name == name;
      }
      if j :| 0 <= j < k && services[j].name == name {
        assert services[..k][j].name == name;
      }
    }
  }

  lemma {:induction false} BuildText(services: seq<ServiceSpec>, i: nat)
    requires i <= |services| && BuildFrom(services, i).Success?
    ensures BuildFrom(services, i).value == Project(ProjectText(services), SortStrings(ScaleArgs(services)))
    decreases |services| - i
  {
    if i < |services| {
      BuildText(services, i + 1);
    }
  }

  /** Whatever order the keys of a map are listed in, sorting yields the printed order. */
  lemma KeyOrderIrrelevant(env: map<string, string>, listing: seq<string>)
    requires multiset(listing) == multiset(env.Keys)
    ensures SortStrings(listing) == SortedKeys(env.Keys)
  {
    SortedUnique(SortStrings(listing), SortedKeys(env.Keys));
  }

  function DefaultCount(service: ServiceSpec): ServiceSpec {
    if service.count == 0 then service.(count := 1) else service
  }

  function DefaultCounts(services: seq<ServiceSpec>): seq<ServiceSpec> {
    seq(|services|, i requires 0 <= i < |services| => DefaultCount(services[i]))
  }

  lemma DefaultCountOne(service: ServiceSpec)
    ensures ServiceLines(DefaultCount(service)) == ServiceLines(service)
    ensures Scaled(service) ==> DefaultCount(service) == service
    ensures Scaled(DefaultCount(service)) <==> Scaled(service)
  {
  }

  lemma DefaultCountsSplit(services: seq<ServiceSpec>)
    requires services != []
    ensures var last := |services| - 1; var d := DefaultCounts(services);
            d[..last] == DefaultCounts(services[..last]) && d[last] == DefaultCount(services[last])
  {
  }

  lemma {:induction false} DefaultCountLines(services: seq<ServiceSpec>)
    ensures ServicesLines(DefaultCounts(services)) == ServicesLines(services)
  {
    if services != [] {
      DefaultCountsSplit(services);
      DefaultCountLines(services[..|services| - 1]);
      DefaultCountOne(services[|services| - 1]);
    }
  }

  lemma {:induction false} DefaultCountArgs(services: seq<ServiceSpec>)
    ensures ScaleArgs(DefaultCounts(services)) == ScaleArgs(services)
  {
    if services != [] {
      DefaultCountsSplit(services);
      DefaultCountArgs(services[..|services| - 1]);
      DefaultCountOne(services[|services| - 1]);
    }
  }

  lemma DefaultCountNames(services: seq<ServiceSpec>, i: nat)
    requires i <= |services|
    ensures Names(DefaultCounts(services)[..i]) == Names(services[..i])
  {
    var a, b := DefaultCounts(services)[..i], services[..i];
    assert forall j | 0 <= j < i :: a[j].name == b[j].name;
    forall name
      ensures name in Names(a) <==> name in Names(b)
    {
      if name in Names(a) {
        var j :| 0 <= j < i && a[j].name == name;
        assert b[j].name == name;
      }
      if name in Names(b) {
        var j :| 0 <= j < i && b[j].name == name;
        assert a[j].name == name;
      }
    }
  }

  lemma {:induction false} DefaultCountFrom(services: seq<ServiceSpec>, i: nat)
    requires i <= |services|
    ensures BuildFrom(DefaultCounts(services), i) == BuildFrom(services, i)
    decreases |services| - i
  {
    if i == |services| {
      DefaultCountLines(services);
      DefaultCountArgs(services);
    } else {
      DefaultCountNames(services, i);
      DefaultCountOne(services[i]);
      DefaultCountFrom(services, i + 1);
    }
  }

  /** To the generator, an absent replica count and a count of one are the same. */
  lemma DefaultCountInvisible(services: seq<ServiceSpec>)
    ensures Build(DefaultCounts(services)) == Build(services)
  {
    DefaultCountFrom(services, 0);
  }

  // ---------- the shape of the lines ----------

  predicate OneLine(s: string) {
    '\n' !in s
  }

  predicate BlankProtocol(port: PortMapping) {
    TrimSpace(port.protocol) == ""
  }

  predicate OneLinePort(port: PortMapping) {
    BlankProtocol(port) || OneLine(port.protocol)
  }

  /** No text that is printed for the service holds a line break. */
  predicate OneLineService(service: ServiceSpec) {
    && OneLine(service.name)
    && OneLine(service.image)
    && (forall key | key in service.env :: OneLine(key) && OneLine(service.env[key]))
    && (forall i | 0 <= i < |service.volumes| :: OneLine(service.volumes[i]))
    && (forall i | 0 <= i < |service.ports| :: OneLinePort(service.ports[i]))
  }

  /** A line below the preamble is indented. */
  predicate BodyLine(line: string) {
    OneLine(line) && line != "" && line[0] == ' '
  }

  predicate BodyLines(lines: seq<string>) {
    forall i | 0 <= i < |lines| :: BodyLine(lines[i])
  }

  lemma SectionBody(title: string, items: seq<string>)
    requires BodyLine(title)
    requires forall i | 0 <= i < |items| :: OneLine(items[i])
    ensures BodyLines(Section(title, items))
  {
    forall i | 0 <= i < |items|
      ensures BodyLine(IndentAll(items)[i])
    {
      assert IndentAll(items)[i] == Indented(items[i]);
    }
  }

  lemma HeadBody(service: ServiceSpec)
    requires OneLineService(service)
    ensures BodyLines(HeadLines(service) + MemoryLines(service.memoryMB))
  {
    DecimalFree(service.memoryMB, '\n');
    assert BodyLine(NameLine(service.name)) && BodyLine(ImageLine(service.image)) && BodyLine(RESTART_LINE);
    assert BodyLine(MemoryLine(service.memoryMB));
  }

  lemma EnvItemOneLine(key: string, value: string)
    requires OneLine(key) && OneLine(value)
    ensures OneLine(EnvItem(key, value))
  {
  }

  lemma EnvBody(service: ServiceSpec)
    requires OneLineService(service)
    ensures BodyLines(EnvSection(service.env))
  {
    var keys := SortedKeys(service.env.Keys);
    KeysInMap(keys, service.env);
    forall i | 0 <= i < |keys|
      ensures OneLine(EnvItems(keys, service.env)[i])
    {
      EnvItemOneLine(keys[i], service.env[keys[i]]);
    }
    SectionBody(ENV_TITLE, EnvItems(keys, service.env));
  }

  lemma PortsBody(service: ServiceSpec)
    requires OneLineService(service)
    ensures BodyLines(Section(PORTS_TITLE, PortItems(service.ports)))
  {
    forall i | 0 <= i < |service.ports|
      ensures OneLine(PortItems(service.ports)[i])
    {
      DecimalFree(service.ports[i].host, '\n');
      DecimalFree(service.ports[i].container, '\n');
      assert OneLine(PortText(service.ports[i]));
    }
    SectionBody(PORTS_TITLE, PortItems(service.ports));
  }

  lemma VolumesBody(service: ServiceSpec)
    requires OneLineService(service)
    ensures BodyLines(Section(VOLUMES_TITLE, VolumeItems(service.volumes)))
  {
    SectionBody(VOLUMES_TITLE, VolumeItems(service.volumes));
  }

  lemma ServiceBody(service: ServiceSpec)
    requires OneLineService(service)
    ensures BodyLines(ServiceLines(service))
  {
    HeadBody(service);
    EnvBody(service);
    VolumesBody(service);
    PortsBody(service);
  }

  lemma {:induction false} FlatMapBody<T>(f: T -> seq<string>, items: seq<T>)
    requires forall i | 0 <= i < |items| :: BodyLines(f(items[i]))
    ensures BodyLines(FlatMap(f, items))
  {
    if items != [] {
      FlatMapBody(f, items[..|items| - 1]);
    }
  }

  lemma ServicesBody(services: seq<ServiceSpec>)
    requires forall i | 0 <= i < |services| :: OneLineService(services[i])
    ensures BodyLines(ServicesLines(services))
    ensures forall i | 0 <= i < |PREAMBLE + ServicesLines(services)| ::
              OneLine((PREAMBLE + ServicesLines(services))[i])
  {
    forall i | 0 <= i < |services|
      ensures BodyLines(ServiceLines(services[i]))
    {
      ServiceBody(services[i]);
    }
    FlatMapBody(ServiceLines, services);
    PreambleOneLines(ServicesLines(services));
  }

  lemma PreambleOneLines(body: seq<string>)
    requires BodyLines(body)
    ensures forall i | 0 <= i < |PREAMBLE + body| :: OneLine((PREAMBLE + body)[i])
  {
    assert OneLine(PREAMBLE[0]) && OneLine(PREAMBLE[1]);
  }
}
