/** An independent reader of compose documents, and the proof that it inverts the generator.
    It knows the document only as indented lines. Double-quoted scalars are accepted when they
    hold neither a quote nor a backslash, so that their text is their value (section 7.3.1 of
    YAML 1.2.2). */
module ComposeParser {
  import opened Wrappers
  import opened Text
  import opened Schema
  import opened Compose
  import opened Sequences

  /** What a document says about a service. */
  datatype ServiceDoc = ServiceDoc(
    name: string,
    image: string,
    memoryMB: nat,
    env: map<string, string>,
    volumes: seq<string>,
    ports: seq<PortMapping>)

  // ---------- reading one line ----------

  function StripPrefix(prefix: string, s: string): Option<string> {
    if prefix <= s then Some(s[|prefix|..]) else None
  }

  /** The text between a prefix and a suffix. */
  function Between(prefix: string, s: string, suffix: string): Option<string> {
    if |prefix| + |suffix| <= |s| && s[..|prefix|] == prefix && s[|s| - |suffix|..] == suffix
    then Some(s[|prefix|..|s| - |suffix|])
    else None
  }

  predicate PlainScalar(s: string) {
    '"' !in s && '\\' !in s
  }

  function ParseName(line: string): Option<string> {
    var name :- Between("  ", line, ":");
    if name != "" && name[0] != ' ' then Some(name) else None
  }

  function ParseEnvItem(item: string): Option<(string, string)> {
    var i := IndexOf(item, ':');
    var value :- Between(": \"", item[i..], "\"");
    if PlainScalar(value) then Some((item[..i], value)) else None
  }

  function ParseVolumeItem(item: string): Option<string> {
    StripPrefix("- ", item)
  }

  function ParsePort(text: string): Option<PortMapping> {
    var i := IndexOf(text, ':');
    if i == |text| then None
    else
      var tail := text[i + 1..];
      var j := IndexOf(tail, '/');
      var host :- ParseInt(text[..i]);
      var container :- ParseInt(tail[..j]);
      Some(PortMapping(host, container, if j < |tail| then tail[j + 1..] else ""))
  }

  function ParsePortItem(item: string): Option<PortMapping> {
    var text :- Between("- \"", item, "\"");
    if PlainScalar(text) then ParsePort(text) else None
  }

  function ParseAll<T>(parse: string -> Option<T>, items: seq<string>): Option<seq<T>> {
    if items == [] then Some([])
    else
      var first :- parse(items[0]);
      var others :- ParseAll(parse, items[1..]);
      Some([first] + others)
  }

  /** A mapping must not repeat a key. */
  function ToMap(pairs: seq<(string, string)>): Option<map<string, string>> {
    if pairs == [] then Some(map[])
    else
      var others :- ToMap(pairs[1..]);
      if pairs[0].0 in others then None else Some(others[pairs[0].0 := pairs[0].1])
  }

  // ---------- reading blocks of lines ----------

  /** The run of item lines at the front, without their indentation. */
  function TakeItems(lines: seq<string>): (r: (seq<string>, seq<string>))
    ensures |r.1| <= |lines|
  {
    if lines == [] then ([], [])
    else match StripPrefix("      ", lines[0])
      case None => ([], lines)
      case Some(item) => var r := TakeItems(lines[1..]); ([item] + r.0, r.1)
  }

  function TakeSection(title: string, lines: seq<string>): (r: (seq<string>, seq<string>))
    ensures |r.1| <= |lines|
  {
    if lines != [] && lines[0] == title then TakeItems(lines[1..]) else ([], lines)
  }

  function TakeMemory(lines: seq<string>): (r: Option<(nat, seq<string>)>)
    ensures r.Some? ==> |r.value.1| <= |lines|
  {
    if lines == [] then Some((0, lines))
    else match Between("    mem_limit: ", lines[0], "m")
      case None => Some((0, lines))
      case Some(text) => var n :- ParseNat(text); Some((n, lines[1..]))
  }

  function ParseService(lines: seq<string>): (r: Option<(ServiceDoc, seq<string>)>)
    ensures r.Some? ==> |r.value.1| < |lines|
  {
    if |lines| < 3 || lines[2] != "    restart: unless-stopped" then None
    else
      var name :- ParseName(lines[0]);
      var image :- StripPrefix("    image: ", lines[1]);
      var memory :- TakeMemory(lines[3..]);
      var envBlock := TakeSection("    environment:", memory.1);
      var volumeBlock := TakeSection("    volumes:", envBlock.1);
      var portBlock := TakeSection("    ports:", volumeBlock.1);
      var pairs :- ParseAll(ParseEnvItem, envBlock.0);
      var env :- ToMap(pairs);
      var volumes :- ParseAll(ParseVolumeItem, volumeBlock.0);
      var ports :- ParseAll(ParsePortItem, portBlock.0);
      Some((ServiceDoc(name, image, memory.0, env, volumes, ports), portBlock.1))
  }

  function ParseServices(lines: seq<string>): Option<seq<ServiceDoc>>
    decreases |lines|
  {
    if lines == [] then Some([])
    else
      var first :- ParseService(lines);
      var others :- ParseServices(first.1);
      Some([first.0] + others)
  }

  function ParseProject(text: string): Option<seq<ServiceDoc>> {
    var parts := Split(text, '\n');
    var lines := parts[..|parts| - 1];
    if parts[|parts| - 1] == "" && |lines| >= 2 && lines[..2] == ["version: '3.9'", "services:"]
    then ParseServices(lines[2..])
    else None
  }

  // ---------- what a document can carry ----------

  predicate WellFormedPort(port: PortMapping) {
    BlankProtocol(port) || (OneLine(port.protocol) && PlainScalar(port.protocol))
  }

  predicate WellFormedPair(key: string, value: string) {
    OneLine(key) && ':' !in key && OneLine(value) && PlainScalar(value)
  }

  predicate WellFormed(service: ServiceSpec) {
    && OneLine(service.name) && service.name != "" && service.name[0] != ' '
    && OneLine(service.image)
    && (forall key | key in service.env :: WellFormedPair(key, service.env[key]))
    && (forall i | 0 <= i < |service.volumes| :: OneLine(service.volumes[i]))
    && (forall i | 0 <= i < |service.ports| :: WellFormedPort(service.ports[i]))
  }

  predicate AllWellFormed(services: seq<ServiceSpec>) {
    forall i | 0 <= i < |services| :: WellFormed(services[i])
  }

  function NormalPort(port: PortMapping): PortMapping {
    if BlankProtocol(port) then port.(protocol := "") else port
  }

  /** What the generator keeps of a service: blank protocols and memory limits that are not
      positive are dropped, and the replica count goes to the scale arguments instead. */
  function Normal(service: ServiceSpec): ServiceDoc {
    ServiceDoc(service.name, service.image,
               if service.memoryMB > 0 then service.memoryMB else 0,
               service.env, service.volumes,
               seq(|service.ports|, i requires 0 <= i < |service.ports| => NormalPort(service.ports[i])))
  }

  function Normals(services: seq<ServiceSpec>): seq<ServiceDoc> {
    seq(|services|, i requires 0 <= i < |services| => Normal(services[i]))
  }

  // ---------- single lines invert ----------

  lemma BetweenOf(prefix: string, x: string, suffix: string)
    ensures Between(prefix, prefix + x + suffix, suffix) == Some(x)
  {
    var s := prefix + x + suffix;
    assert s[..|prefix|] == prefix;
    assert s[|s| - |suffix|..] == suffix;
    assert s[|prefix|..|s| - |suffix|] == x;
  }

  lemma NameInverts(name: string)
    requires name != "" && name[0] != ' '
    ensures ParseName(NameLine(name)) == Some(name)
  {
    BetweenOf("  ", name, ":");
  }

  lemma EnvItemInverts(key: string, value: string)
    requires WellFormedPair(key, value)
    ensures ParseEnvItem(EnvItem(key, value)) == Some((key, value))
  {
    var tail := ": \"" + value + "\"";
    assert EnvItem(key, value) == key + tail;
    IndexOfIs(key + tail, ':', |key|);
    assert (key + tail)[|key|..] == tail && (key + tail)[..|key|] == key;
    BetweenOf(": \"", value, "\"");
  }

  lemma VolumeItemInverts(volume: string)
    ensures ParseVolumeItem(VolumeItem(volume)) == Some(volume)
  {
    assert VolumeItem(volume)[2..] == volume;
  }

  lemma PortTextInverts(host: int, container: int, tail: string)
    requires tail == "" || tail[0] == '/'
    ensures ParsePort(Decimal(host) + ":" + (Decimal(container) + tail))
         == Some(PortMapping(host, container, if tail == "" then "" else tail[1..]))
  {
    var h, c := Decimal(host), Decimal(container);
    var text := h + ":" + (c + tail);
    DecimalRoundTrip(host);
    DecimalRoundTrip(container);
    DecimalFree(host, ':');
    DecimalFree(container, '/');
    IndexOfIs(text, ':', |h|);
    assert text[..|h|] == h && text[|h| + 1..] == c + tail;
    IndexOfIs(c + tail, '/', |c|);
    assert (c + tail)[..|c|] == c;
    assert tail != "" ==> (c + tail)[|c| + 1..] == tail[1..];
  }

  lemma PortInverts(port: PortMapping)
    ensures ParsePort(PortText(port)) == Some(NormalPort(port))
  {
    var tail := if BlankProtocol(port) then "" else "/" + port.protocol;
    PortTextInverts(port.host, port.container, tail);
    Regrouped(Decimal(port.host), ":", Decimal(port.container), tail);
    assert tail != "" ==> tail[1..] == port.protocol;
  }

  lemma Regrouped(a: string, b: string, c: string, d: string)
    ensures (a + b + c) + d == a + b + (c + d)
  {
  }

  lemma PortTextPlain(port: PortMapping)
    requires WellFormedPort(port)
    ensures PlainScalar(PortText(port))
  {
    DecimalFree(port.host, '"'); DecimalFree(port.container, '"');
    DecimalFree(port.host, '\\'); DecimalFree(port.container, '\\');
  }

  lemma PortItemInverts(port: PortMapping)
    requires WellFormedPort(port)
    ensures ParsePortItem(PortItem(PortText(port))) == Some(NormalPort(port))
  {
    BetweenOf("- \"", PortText(port), "\"");
    PortTextPlain(port);
    PortInverts(port);
  }

  lemma MemoryInverts(memoryMB: int)
    requires memoryMB > 0
    ensures Between("    mem_limit: ", MemoryLine(memoryMB), "m") == Some(Decimal(memoryMB))
    ensures ParseNat(Decimal(memoryMB)) == Some(memoryMB)
  {
    BetweenOf("    mem_limit: ", Decimal(memoryMB), "m");
    DecimalNatValue(memoryMB);
  }

  lemma {:induction false} ParseAllInverts<T>(parse: string -> Option<T>, items: seq<string>, values: seq<T>)
    requires |items| == |values|
    requires forall i | 0 <= i < |items| :: parse(items[i]) == Some(values[i])
    ensures ParseAll(parse, items) == Some(values)
  {
    if items != [] {
      ParseAllInverts(parse, items[1..], values[1..]);
      assert values == [values[0]] + values[1..];
    }
  }

  // ---------- blocks invert ----------

  /** What tells the lines inside a service apart: the fifth character, or '#' for the line
      that opens the next service. */
  function Tag(line: string): char {
    if |line| > 4 && line[2] == ' ' && line[3] == ' ' then line[4] else '#'
  }

  predicate Begins(lines: seq<string>, tags: set<char>) {
    lines == [] || Tag(lines[0]) in tags
  }

  lemma Tags(name: string, item: string, memoryMB: int)
    requires name != "" && name[0] != ' '
    ensures Tag(NameLine(name)) == '#' && Tag(Indented(item)) == ' ' && Tag(MemoryLine(memoryMB)) == 'm'
    ensures Tag(ENV_TITLE) == 'e' && Tag(VOLUMES_TITLE) == 'v' && Tag(PORTS_TITLE) == 'p'
  {
  }

  lemma NotItem(line: string)
    requires Tag(line) != ' '
    ensures StripPrefix("      ", line).None?
  {
  }

  lemma NotMemory(line: string)
    requires Tag(line) != 'm'
    ensures Between("    mem_limit: ", line, "m").None?
  {
  }

  lemma {:induction false} TakeItemsInverts(items: seq<string>, rest: seq<string>, tags: set<char>)
    requires Begins(rest, tags) && ' ' !in tags
    ensures TakeItems(IndentAll(items) + rest) == (items, rest)
  {
    var lines := IndentAll(items) + rest;
    if items == [] {
      assert lines == rest;
      if rest != [] { NotItem(rest[0]); }
    } else {
      assert lines[1..] == IndentAll(items[1..]) + rest;
      TakeItemsInverts(items[1..], rest, tags);
      assert lines[0] == Indented(items[0]);
      assert Indented(items[0])[6..] == items[0];
      assert items == [items[0]] + items[1..];
    }
  }

  lemma TakeTitled(title: string, lines: seq<string>)
    ensures TakeSection(title, [title] + lines) == TakeItems(lines)
  {
    assert ([title] + lines)[1..] == lines;
  }

  lemma TakeSectionInverts(title: string, items: seq<string>, rest: seq<string>, tags: set<char>)
    requires Begins(rest, tags) && ' ' !in tags && Tag(title) !in tags
    ensures TakeSection(title, Section(title, items) + rest) == (items, rest)
  {
    if items == [] {
      assert Section(title, items) + rest == rest;
    } else {
      TakeItemsInverts(items, rest, tags);
      TakeTitled(title, IndentAll(items) + rest);
      assert Section(title, items) + rest == [title] + (IndentAll(items) + rest);
    }
  }

  lemma TakeMemoryInverts(memoryMB: int, rest: seq<string>)
    requires Begins(rest, {'#', 'e', 'v', 'p'})
    ensures TakeMemory(MemoryLines(memoryMB) + rest)
         == Some((if memoryMB > 0 then memoryMB else 0, rest))
  {
    var lines := MemoryLines(memoryMB) + rest;
    if memoryMB > 0 {
      MemoryInverts(memoryMB);
      assert lines[0] == MemoryLine(memoryMB) && lines[1..] == rest;
    } else {
      assert lines == rest;
      if rest != [] { NotMemory(rest[0]); }
    }
  }

  lemma ItemsInvert(service: ServiceSpec, keys: seq<string>)
    requires WellFormed(service)
    requires forall key :: key in keys <==> key in service.env
    ensures ParseAll(ParseEnvItem, EnvItems(keys, service.env))
         == Some(seq(|keys|, i requires 0 <= i < |keys| => (keys[i], service.env[keys[i]])))
    ensures ParseAll(ParseVolumeItem, VolumeItems(service.volumes)) == Some(service.volumes)
    ensures ParseAll(ParsePortItem, PortItems(service.ports)) == Some(Normal(service).ports)
  {
    var env := service.env;
    forall i | 0 <= i < |keys|
      ensures ParseEnvItem(EnvItems(keys, env)[i]) == Some((keys[i], env[keys[i]]))
    {
      EnvItemInverts(keys[i], env[keys[i]]);
    }
    ParseAllInverts(ParseEnvItem, EnvItems(keys, env),
                    seq(|keys|, i requires 0 <= i < |keys| => (keys[i], service.env[keys[i]])));
    forall i | 0 <= i < |service.volumes|
      ensures ParseVolumeItem(VolumeItems(service.volumes)[i]) == Some(service.volumes[i])
    {
      VolumeItemInverts(service.volumes[i]);
    }
    ParseAllInverts(ParseVolumeItem, VolumeItems(service.volumes), service.volumes);
    forall i | 0 <= i < |service.ports|
      ensures ParsePortItem(PortItems(service.ports)[i]) == Some(Normal(service).ports[i])
    {
      PortItemInverts(service.ports[i]);
    }
    ParseAllInverts(ParsePortItem, PortItems(service.ports), Normal(service).ports);
  }

  lemma {:induction false} ToMapInverts(keys: seq<string>, env: map<string, string>)
    requires forall key | key in keys :: key in env
    requires forall i, j | 0 <= i < j < |keys| :: keys[i] != keys[j]
    ensures ToMap(seq(|keys|, i requires 0 <= i < |keys| => (keys[i], env[keys[i]])))
         == Some(map key | key in keys :: env[key])
  {
    var pairs := seq(|keys|, i requires 0 <= i < |keys| => (keys[i], env[keys[i]]));
    if keys != [] {
      var others := keys[1..];
      ToMapInverts(others, env);
      assert pairs[1..] == seq(|others|, i requires 0 <= i < |others| => (others[i], env[others[i]]));
      assert keys[0] !in others;
      assert (map key | key in others :: env[key])[keys[0] := env[keys[0]]]
          == map key | key in keys :: env[key];
    } else {
      assert pairs == [];
    }
  }

  lemma SortedKeysDistinct(env: map<string, string>)
    ensures var keys := SortedKeys(env.Keys);
            && (forall key :: key in keys <==> key in env)
            && (forall i, j | 0 <= i < j < |keys| :: keys[i] != keys[j])
  {
    KeysInMap(SortedKeys(env.Keys), env);
    DistinctListing(SortedKeys(env.Keys), env.Keys);
  }

  lemma EnvInverts(service: ServiceSpec)
    requires WellFormed(service)
    ensures var keys := SortedKeys(service.env.Keys);
            && (forall key :: key in keys <==> key in service.env)
            && (ParseAll(ParseEnvItem, EnvItems(keys, service.env)).Some?)
            && ToMap(ParseAll(ParseEnvItem, EnvItems(keys, service.env)).value) == Some(service.env)
  {
    var keys := SortedKeys(service.env.Keys);
    SortedKeysDistinct(service.env);
    ItemsInvert(service, keys);
    ToMapInverts(keys, service.env);
    assert (map key | key in keys :: service.env[key]) == service.env;
  }

  // ---------- a service inverts ----------

  /** The blocks after the head of a service, from the last one back. */
  lemma BlocksInvert(service: ServiceSpec, keys: seq<string>, rest: seq<string>)
    requires forall key | key in keys :: key in service.env
    requires Begins(rest, {'#'})
    ensures var ports := Section(PORTS_TITLE, PortItems(service.ports)) + rest;
            var volumes := Section(VOLUMES_TITLE, VolumeItems(service.volumes)) + ports;
            var env := Section(ENV_TITLE, EnvItems(keys, service.env)) + volumes;
            && TakeMemory(MemoryLines(service.memoryMB) + env) == Some((Normal(service).memoryMB, env))
            && TakeSection(ENV_TITLE, env) == (EnvItems(keys, service.env), volumes)
            && TakeSection(VOLUMES_TITLE, volumes) == (VolumeItems(service.volumes), ports)
            && TakeSection(PORTS_TITLE, ports) == (PortItems(service.ports), rest)
  {
    Tags("x", "", 0);
    TakeSectionInverts(PORTS_TITLE, PortItems(service.ports), rest, {'#'});
    var ports := Section(PORTS_TITLE, PortItems(service.ports)) + rest;
    TakeSectionInverts(VOLUMES_TITLE, VolumeItems(service.volumes), ports, {'#', 'p'});
    var volumes := Section(VOLUMES_TITLE, VolumeItems(service.volumes)) + ports;
    TakeSectionInverts(ENV_TITLE, EnvItems(keys, service.env), volumes, {'#', 'v', 'p'});
    TakeMemoryInverts(service.memoryMB, Section(ENV_TITLE, EnvItems(keys, service.env)) + volumes);
  }

  lemma FourBlocks(head: seq<string>, memory: seq<string>, env: seq<string>,
                   volumes: seq<string>, ports: seq<string>, rest: seq<string>)
    requires |head| == 3
    ensures var lines := head + memory + env + volumes + ports + rest;
            && |lines| >= 3 && lines[..3] == head
            && lines[3..] == memory + (env + (volumes + (ports + rest)))
  {
  }

  lemma ServiceShape(service: ServiceSpec, rest: seq<string>)
    ensures var lines := ServiceLines(service) + rest;
            && |lines| >= 3
            && lines[0] == NameLine(service.name) && lines[1] == ImageLine(service.image) && lines[2] == RESTART_LINE
            && lines[3..] == MemoryLines(service.memoryMB)
                 + (EnvSection(service.env)
                    + (Section(VOLUMES_TITLE, VolumeItems(service.volumes))
                       + (Section(PORTS_TITLE, PortItems(service.ports)) + rest)))
  {
    var head := HeadLines(service);
    FourBlocks(head, MemoryLines(service.memoryMB), EnvSection(service.env),
               Section(VOLUMES_TITLE, VolumeItems(service.volumes)),
               Section(PORTS_TITLE, PortItems(service.ports)), rest);
    var lines := ServiceLines(service) + rest;
    assert lines[0] == lines[..3][0] && lines[1] == lines[..3][1] && lines[2] == lines[..3][2];
  }

  lemma ServiceInverts(service: ServiceSpec, rest: seq<string>)
    requires WellFormed(service)
    requires Begins(rest, {'#'})
    ensures ParseService(ServiceLines(service) + rest) == Some((Normal(service), rest))
  {
    var keys := SortedKeys(service.env.Keys);
    EnvInverts(service);
    ItemsInvert(service, keys);
    BlocksInvert(service, keys, rest);
    NameInverts(service.name);
    ImageInverts(service.image);
    ServiceShape(service, rest);
  }

  lemma ImageInverts(image: string)
    ensures StripPrefix("    image: ", ImageLine(image)) == Some(image)
  {
  }

  // ---------- the document inverts ----------

  lemma ServicesLinesHead(services: seq<ServiceSpec>)
    requires services != []
    ensures ServicesLines(services) == ServiceLines(services[0]) + ServicesLines(services[1..])
  {
    FlatMapHead(ServiceLines, services);
  }

  lemma ServicesBegin(services: seq<ServiceSpec>)
    requires AllWellFormed(services)
    ensures Begins(ServicesLines(services), {'#'})
  {
    if services != [] {
      ServicesLinesHead(services);
      assert WellFormed(services[0]);
      Tags(services[0].name, "", 0);
      ServiceShape(services[0], ServicesLines(services[1..]));
    }
  }

  lemma FirstInverts(services: seq<ServiceSpec>)
    requires AllWellFormed(services) && services != []
    ensures ParseService(ServicesLines(services)) == Some((Normal(services[0]), ServicesLines(services[1..])))
  {
    ServicesLinesHead(services);
    ServicesBegin(services[1..]);
    assert WellFormed(services[0]);
    ServiceInverts(services[0], ServicesLines(services[1..]));
  }

  lemma ParseFirst(lines: seq<string>, rest: seq<string>, doc: ServiceDoc, docs: seq<ServiceDoc>)
    requires ParseService(lines) == Some((doc, rest)) && ParseServices(rest) == Some(docs)
    ensures ParseServices(lines) == Some([doc] + docs)
  {
  }

  lemma NormalsHead(services: seq<ServiceSpec>)
    requires services != []
    ensures Normals(services) == [Normal(services[0])] + Normals(services[1..])
  {
  }

  lemma {:induction false} ServicesInvert(services: seq<ServiceSpec>)
    requires AllWellFormed(services)
    ensures ParseServices(ServicesLines(services)) == Some(Normals(services))
  {
    if services != [] {
      ServicesInvert(services[1..]);
      FirstInverts(services);
      ParseFirst(ServicesLines(services), ServicesLines(services[1..]), Normal(services[0]), Normals(services[1..]));
      NormalsHead(services);
    } else {
      assert Normals(services) == [];
    }
  }

  lemma WellFormedOneLine(services: seq<ServiceSpec>)
    requires AllWellFormed(services)
    ensures forall i | 0 <= i < |services| :: OneLineService(services[i])
  {
    forall i | 0 <= i < |services|
      ensures OneLineService(services[i])
    {
      assert WellFormed(services[i]);
      assert forall key | key in services[i].env :: WellFormedPair(key, services[i].env[key]);
    }
  }

  /** Reading a generated document gives back every service, in order. */
  lemma PrintParse(services: seq<ServiceSpec>)
    requires AllWellFormed(services)
    ensures ParseProject(ProjectText(services)) == Some(Normals(services))
  {
    var body := ServicesLines(services);
    WellFormedOneLine(services);
    ServicesBody(services);
    SplitUnlines(PREAMBLE + body);
    assert (PREAMBLE + body)[..2] == PREAMBLE && (PREAMBLE + body)[2..] == body;
    ServicesInvert(services);
  }

  lemma RoundTrip(services: seq<ServiceSpec>)
    requires AllWellFormed(services) && Build(services).Success?
    ensures ParseProject(Build(services).value.text) == Some(Normals(services))
  {
    BuildText(services, 0);
    PrintParse(services);
  }

  lemma SamePort(p: PortMapping, q: PortMapping)
    requires NormalPort(p) == NormalPort(q)
    ensures PortText(p) == PortText(q)
  {
  }

  lemma SameService(s: ServiceSpec, t: ServiceSpec)
    requires Normal(s) == Normal(t)
    ensures ServiceLines(s) == ServiceLines(t)
  {
    assert |s.ports| == |Normal(s).ports| == |t.ports|;
    forall i | 0 <= i < |s.ports|
      ensures PortItems(s.ports)[i] == PortItems(t.ports)[i]
    {
      assert Normal(s).ports[i] == NormalPort(s.ports[i]) && Normal(t).ports[i] == NormalPort(t.ports[i]);
      SamePort(s.ports[i], t.ports[i]);
    }
    assert PortItems(s.ports) == PortItems(t.ports);
    assert MemoryLines(s.memoryMB) == MemoryLines(t.memoryMB);
  }

  lemma NormalsFront(a: seq<ServiceSpec>)
    requires a != []
    ensures Normals(a)[|a| - 1] == Normal(a[|a| - 1])
    ensures Normals(a[..|a| - 1]) == Normals(a)[..|a| - 1]
  {
  }

  lemma {:induction false} SameLines(a: seq<ServiceSpec>, b: seq<ServiceSpec>)
    requires Normals(a) == Normals(b)
    ensures ServicesLines(a) == ServicesLines(b)
  {
    assert |a| == |Normals(a)| == |b|;
    if a != [] {
      NormalsFront(a);
      NormalsFront(b);
      SameLines(a[..|a| - 1], b[..|a| - 1]);
      SameService(a[|a| - 1], b[|a| - 1]);
    }
  }

  /** Projects that differ after normalisation never share a document. */
  lemma DocumentsDistinct(a: seq<ServiceSpec>, b: seq<ServiceSpec>)
    requires AllWellFormed(a) && AllWellFormed(b)
    ensures ProjectText(a) == ProjectText(b) <==> Normals(a) == Normals(b)
  {
    PrintParse(a);
    PrintParse(b);
    if Normals(a) == Normals(b) {
      SameLines(a, b);
    }
  }

  // ---------- scale arguments ----------

  function LastIndexOf(s: string, c: char): (i: nat)
    ensures i <= |s|
  {
    if s == "" then 0
    else if s[|s| - 1] == c then |s| - 1
    else
      var i := LastIndexOf(s[..|s| - 1], c);
      if i == |s| - 1 then |s| else i
  }

  /** The name and the number of replicas that a scale argument asks for: what follows the last
      equals sign is the number. */
  function ReadScale(arg: string): Option<(string, int)> {
    var text :- StripPrefix("--scale ", arg);
    var i := LastIndexOf(text, '=');
    if i == |text| then None
    else
      var count :- ParseInt(text[i + 1..]);
      Some((text[..i], count))
  }

  lemma {:induction false} LastIndexOfIs(front: string, c: char, tail: string)
    requires c !in tail
    ensures LastIndexOf(front + [c] + tail, c) == |front|
    decreases |tail|
  {
    var s := front + [c] + tail;
    if tail != "" {
      var shorter := tail[..|tail| - 1];
      assert s[..|s| - 1] == front + [c] + shorter;
      LastIndexOfIs(front, c, shorter);
    }
  }

  lemma ScaleArgInverts(service: ServiceSpec)
    ensures ReadScale(ScaleArg(service)) == Some((service.name, service.count))
  {
    var count := Decimal(service.count);
    var text := service.name + "=" + count;
    assert ScaleArg(service)[8..] == text;
    DecimalRoundTrip(service.count);
    DecimalFree(service.count, '=');
    assert text[|service.name| + 1..] == count && text[..|service.name|] == service.name;
    assert text == service.name + ['='] + count;
    LastIndexOfIs(service.name, '=', count);
  }

  /** All that a list of scale arguments asks for. */
  ghost function ReadScales(args: seq<string>): multiset<Option<(string, int)>> {
    if args == [] then multiset{} else multiset{ReadScale(args[0])} + ReadScales(args[1..])
  }

  /** The replicas that a list of services asks for, where they are more than one. */
  ghost function Replicas(services: seq<ServiceSpec>): multiset<Option<(string, int)>> {
    if services == [] then multiset{}
    else
      var last := services[|services| - 1];
      Replicas(services[..|services| - 1])
      + if last.count > 1 then multiset{Some((last.name, last.count))} else multiset{}
  }

  lemma {:induction false} ReadScalesConcat(a: seq<string>, b: seq<string>)
    ensures ReadScales(a + b) == ReadScales(a) + ReadScales(b)
  {
    if a == [] {
      assert a + b == b;
    } else {
      assert (a + b)[1..] == a[1..] + b;
      ReadScalesConcat(a[1..], b);
    }
  }

  lemma ReadScalesDrop(args: seq<string>, k: nat)
    requires k < |args|
    ensures ReadScales(args) == multiset{ReadScale(args[k])} + ReadScales(Drop(args, k))
  {
    var front, back := args[..k], args[k + 1..];
    ReadScalesConcat(front + [args[k]], back);
    ReadScalesConcat(front, [args[k]]);
    ReadScalesConcat(front, back);
    ReadScalesOne(args[k]);
    Reassembled(args, k);
  }

  lemma ReadScalesOne(arg: string)
    ensures ReadScales([arg]) == multiset{ReadScale(arg)}
  {
    assert [arg][1..] == [];
  }

  lemma {:induction false} ReadScalesOrder(a: seq<string>, b: seq<string>)
    requires multiset(a) == multiset(b)
    ensures ReadScales(a) == ReadScales(b)
    decreases |a|
  {
    if a == [] {
      assert |multiset(a)| == |multiset(b)| == |b|;
    } else {
      assert a[0] in multiset(b);
      var k :| 0 <= k < |b| && b[k] == a[0];
      ReadScalesDrop(b, k);
      SameAfterDrop(a, b, k);
      ReadScalesOrder(a[1..], Drop(b, k));
    }
  }

  lemma {:induction false} ScalesInvert(services: seq<ServiceSpec>)
    ensures ReadScales(ScaleArgs(services)) == Replicas(services)
  {
    if services != [] {
      var front, last := services[..|services| - 1], services[|services| - 1];
      var own := if Scaled(last) then [ScaleArg(last)] else [];
      ScalesInvert(front);
      ScaleArgInverts(last);
      ReadScalesConcat(ScaleArgs(front), own);
      assert Scaled(last) ==> own[1..] == [] && ReadScales(own) == multiset{ReadScale(own[0])};
    }
  }

  /** The scale arguments are sorted, and say the name and the number of replicas of exactly the
      services that ask for more than one. */
  lemma ScaleArgsExact(services: seq<ServiceSpec>)
    requires Build(services).Success?
    ensures Sorted(Build(services).value.scaleArgs)
    ensures ReadScales(Build(services).value.scaleArgs) == Replicas(services)
  {
    BuildText(services, 0);
    ReadScalesOrder(SortStrings(ScaleArgs(services)), ScaleArgs(services));
    ScalesInvert(services);
  }

  // ---------- document and scale arguments together ----------

  /** The number of replicas that a service runs with. */
  function Count(service: ServiceSpec): int {
    if service.count < 1 then 1 else service.count
  }

  predicate SameCounts(a: seq<ServiceSpec>, b: seq<ServiceSpec>) {
    |a| == |b| && forall i | 0 <= i < |a| :: Count(a[i]) == Count(b[i])
  }

  predicate AsksFor(service: ServiceSpec, name: string, count: int) {
    service.count > 1 && service.name == name && service.count == count
  }

  lemma {:induction false} ReplicasHave(services: seq<ServiceSpec>, name: string, count: int)
    ensures Some((name, count)) in Replicas(services)
       <==> exists i | 0 <= i < |services| :: AsksFor(services[i], name, count)
  {
    if services != [] {
      var last := |services| - 1;
      var front := services[..last];
      ReplicasHave(front, name, count);
      if i :| 0 <= i < |front| && AsksFor(front[i], name, count) {
        assert AsksFor(services[i], name, count);
      }
      if i :| 0 <= i < |services| && AsksFor(services[i], name, count) {
        assert i == last || AsksFor(front[i], name, count);
      }
    }
  }

  lemma CountsAgree(a: seq<ServiceSpec>, b: seq<ServiceSpec>, i: nat)
    requires Acceptable(b) && Normals(a) == Normals(b) && Replicas(a) == Replicas(b)
    requires i < |a| && a[i].count > 1
    ensures |a| == |b| && a[i].count == b[i].count
  {
    assert |a| == |Normals(a)| == |b|;
    ReplicasHave(a, a[i].name, a[i].count);
    ReplicasHave(b, a[i].name, a[i].count);
    assert AsksFor(a[i], a[i].name, a[i].count);
    var j :| 0 <= j < |b| && AsksFor(b[j], a[i].name, a[i].count);
    assert Normals(a)[i].name == a[i].name && Normals(b)[i].name == b[i].name;
    assert i == j;
  }

  lemma {:induction false} SameScaleArgs(a: seq<ServiceSpec>, b: seq<ServiceSpec>)
    requires Normals(a) == Normals(b) && SameCounts(a, b)
    ensures ScaleArgs(a) == ScaleArgs(b)
  {
    if a != [] {
      var last := |a| - 1;
      NormalsFront(a);
      NormalsFront(b);
      SameScaleArgs(a[..last], b[..last]);
      assert Count(a[last]) == Count(b[last]);
      assert Normal(a[last]).name == Normal(b[last]).name;
    }
  }

  /** What generation yields determines the services, replicas included, up to normalisation, and
      is determined by them. */
  lemma ProjectsDistinct(a: seq<ServiceSpec>, b: seq<ServiceSpec>)
    requires AllWellFormed(a) && AllWellFormed(b) && Build(a).Success? && Build(b).Success?
    ensures Build(a) == Build(b) <==> Normals(a) == Normals(b) && SameCounts(a, b)
  {
    BuildText(a, 0);
    BuildText(b, 0);
    if Build(a) == Build(b) {
      DocumentsDistinct(a, b);
      ScaleArgsExact(a);
      ScaleArgsExact(b);
      ValidationExact(a);
      ValidationExact(b);
      assert |a| == |Normals(a)| == |b|;
      forall i | 0 <= i < |a|
        ensures Count(a[i]) == Count(b[i])
      {
        if a[i].count > 1 {
          CountsAgree(a, b, i);
        } else if b[i].count > 1 {
          CountsAgree(b, a, i);
        }
      }
    }
    if Normals(a) == Normals(b) && SameCounts(a, b) {
      SameLines(a, b);
      SameScaleArgs(a, b);
    }
  }
}
