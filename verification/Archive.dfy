/** Packing the captured state into archive entries and routing them back
    (internal/extractor/transport.go:69-130 and 189-241). */
module Archive {
  import opened Wrappers
  import opened Encoding
  import opened State

  /** One entry of a tar archive; the archive itself is the sequence of its entries. */
  datatype Entry = Entry(name: string, content: Bytes)

  const FAMILIES: set<Family> := {Certificates, Databases, Configs, SSHKeys}

  function Prefix(family: Family): string {
    match family
    case Certificates => "certs/"
    case Databases => "databases/"
    case Configs => "configs/"
    case SSHKeys => "ssh_keys/"
  }

  /** Decoding metadata into a state adds to the maps that are there. */
  function Merged(state: SystemState, decoded: SystemState): SystemState {
    SystemState(state.certificates + decoded.certificates, state.databases + decoded.databases,
             state.configs + decoded.configs, state.sshPublicKeys + decoded.sshPublicKeys)
  }

  const METADATA_NAME := "STATE.yaml"

  // ---------- packing ----------

  function EntryOf(family: Family, files: Files, name: string): Entry
    requires name in files
  {
    Entry(Prefix(family) + name, files[name])
  }

  function EntriesOf(family: Family, files: Files, names: set<string>): set<Entry>
    requires names <= files.Keys
  {
    set name | name in names :: EntryOf(family, files, name)
  }

  function FamilyBag(state: SystemState, family: Family): multiset<Entry> {
    multiset(EntriesOf(family, state.Of(family), state.Of(family).Keys))
  }

  function EntryBag(state: SystemState): multiset<Entry> {
    FamilyBag(state, Certificates) + FamilyBag(state, Databases) + FamilyBag(state, Configs)
    + FamilyBag(state, SSHKeys)
  }

  /** Appends the files of one family in an order that the program does not control. */
  method AddToTar(archive: seq<Entry>, family: Family, files: Files) returns (grown: seq<Entry>)
    ensures archive <= grown
    ensures multiset(grown[|archive|..]) == multiset(EntriesOf(family, files, files.Keys))
  {
    grown := archive;
    ghost var added: seq<Entry> := [];
    var names := files.Keys;
    while names != {}
      invariant names <= files.Keys
      invariant grown == archive + added
      invariant multiset(added) == multiset(EntriesOf(family, files, files.Keys - names))
      decreases |names|
    {
      var name :| name in names;
      EntriesGrow(family, files, names, name);
      grown := grown + [EntryOf(family, files, name)];
      added := added + [EntryOf(family, files, name)];
      names := names - {name};
    }
    assert files.Keys - names == files.Keys;
  }

  lemma EntriesGrow(family: Family, files: Files, left: set<string>, name: string)
    requires left <= files.Keys && name in left
    ensures multiset(EntriesOf(family, files, files.Keys - (left - {name})))
         == multiset(EntriesOf(family, files, files.Keys - left)) + multiset{EntryOf(family, files, name)}
  {
    var done := files.Keys - left;
    assert files.Keys - (left - {name}) == done + {name};
    forall other | other in done
      ensures EntryOf(family, files, other) != EntryOf(family, files, name)
    {
      SamePrefix(Prefix(family), other, name);
    }
    assert EntriesOf(family, files, done + {name})
        == EntriesOf(family, files, done) + {EntryOf(family, files, name)};
  }

  lemma SamePrefix(prefix: string, a: string, b: string)
    ensures prefix + a == prefix + b ==> a == b
  {
    assert (prefix + a)[|prefix|..] == a && (prefix + b)[|prefix|..] == b;
  }

  /** The entries that PackSystemState writes. */
  method Pack(state: SystemState, metadata: Bytes) returns (archive: seq<Entry>)
    ensures PackedAs(archive, state, metadata)
  {
    archive := [Entry(METADATA_NAME, metadata)];
    var a := AddToTar(archive, Certificates, state.certificates);
    var b := AddToTar(a, Databases, state.databases);
    var c := AddToTar(b, Configs, state.configs);
    var d := AddToTar(c, SSHKeys, state.sshPublicKeys);
    Appended(archive, a, b);
    Appended(archive, b, c);
    Appended(archive, c, d);
    archive := d;
  }

  lemma Appended(first: seq<Entry>, before: seq<Entry>, after: seq<Entry>)
    requires first <= before <= after
    ensures multiset(after[|first|..]) == multiset(before[|first|..]) + multiset(after[|before|..])
  {
    assert after[|first|..] == before[|first|..] + after[|before|..];
  }

  // ---------- unpacking ----------

  function Put(state: SystemState, family: Family, name: string, content: Bytes): SystemState {
    state.With(family, state.Of(family)[name := content])
  }

  /** The family whose prefix a name has. */
  ghost predicate Matches(name: string, family: Family) {
    Prefix(family) <= name
  }

  /** At most one prefix matches, so the order in which they are tried does not matter. */
  lemma PrefixesExclusive(name: string, f: Family, g: Family)
    requires Matches(name, f) && Matches(name, g)
    ensures f == g
  {
    assert Prefix(f)[0] == name[0] == Prefix(g)[0];
    assert Prefix(f)[1] == name[1] == Prefix(g)[1];
  }

  /** What one entry other than the metadata does to the state. */
  ghost function Routed(state: SystemState, entry: Entry): SystemState {
    if exists f :: Matches(entry.name, f) then
      var f :| Matches(entry.name, f);
      Put(state, f, entry.name[|Prefix(f)|..], entry.content)
    else state
  }

  /** Decoding the metadata may fail. */
  type Decoder = Bytes -> Option<SystemState>

  /** Unpacking, entry by entry; a failed decoding is an error. */
  ghost function UnpackedFrom(state: SystemState, archive: seq<Entry>, decode: Decoder): Option<SystemState>
    decreases |archive|
  {
    if archive == [] then Some(state)
    else if archive[0].name == METADATA_NAME then
      match decode(archive[0].content)
      case None => None
      case Some(decoded) => UnpackedFrom(Merged(state, decoded), archive[1..], decode)
    else UnpackedFrom(Routed(state, archive[0]), archive[1..], decode)
  }

  /** Tries the prefixes in an order that the program does not control, up to the first match. */
  method Route(state: SystemState, entry: Entry) returns (routed: SystemState)
    ensures routed == Routed(state, entry)
  {
    routed := state;
    var untried := FAMILIES;
    while untried != {}
      invariant untried <= FAMILIES
      invariant routed == state
      invariant forall f | f in FAMILIES - untried :: !Matches(entry.name, f)
      decreases |untried|
    {
      var family :| family in untried;
      if Prefix(family) <= entry.name {
        routed := Put(state, family, entry.name[|Prefix(family)|..], entry.content);
        RoutedIs(state, entry, family);
        return;
      }
      untried := untried - {family};
    }
    forall f
      ensures f in FAMILIES
    {
      match f case Certificates => case Databases => case Configs => case SSHKeys =>
    }
  }

  lemma RoutedIs(state: SystemState, entry: Entry, family: Family)
    requires Matches(entry.name, family)
    ensures Routed(state, entry) == Put(state, family, entry.name[|Prefix(family)|..], entry.content)
  {
    forall f | Matches(entry.name, f)
      ensures f == family
    {
      PrefixesExclusive(entry.name, f, family);
    }
  }

  /** The read loop of UnpackSystemState. */
  method Unpack(archive: seq<Entry>, decode: Decoder) returns (r: Option<SystemState>)
    ensures r == UnpackedFrom(NOTHING, archive, decode)
  {
    var state := NOTHING;
    assert archive[0..] == archive;
    for i := 0 to |archive|
      invariant UnpackedFrom(NOTHING, archive, decode) == UnpackedFrom(state, archive[i..], decode)
    {
      assert archive[i..][0] == archive[i] && archive[i..][1..] == archive[i + 1..];
      if archive[i].name == METADATA_NAME {
        var decoded := decode(archive[i].content);
        if decoded.None? {
          return None;
        }
        state := Merged(state, decoded.value);
      } else {
        state := Route(state, archive[i]);
      }
    }
    return Some(state);
  }

  // ---------- routing inverts packing ----------

  lemma PackedName(family: Family, name: string)
    ensures Matches(Prefix(family) + name, family)
    ensures (Prefix(family) + name)[|Prefix(family)|..] == name
    ensures Prefix(family) + name != METADATA_NAME
  {
    assert (Prefix(family) + name)[0] == Prefix(family)[0] != METADATA_NAME[0];
  }

  /** The entry of a file goes back into its map, whatever its name. */
  lemma RoutedBack(state: SystemState, family: Family, files: Files, name: string)
    requires name in files
    ensures Routed(state, EntryOf(family, files, name)) == Put(state, family, name, files[name])
  {
    PackedName(family, name);
    RoutedIs(state, EntryOf(family, files, name), family);
  }

  ghost predicate FromState(state: SystemState, entry: Entry, family: Family, name: string) {
    name in state.Of(family) && entry == EntryOf(family, state.Of(family), name)
  }

  ghost predicate Packed(state: SystemState, entry: Entry) {
    exists family, name :: FromState(state, entry, family, name)
  }

  lemma BagMember(state: SystemState, entry: Entry)
    requires entry in EntryBag(state)
    ensures Packed(state, entry)
  {
    var family := if entry in FamilyBag(state, Certificates) then Certificates
                  else if entry in FamilyBag(state, Databases) then Databases
                  else if entry in FamilyBag(state, Configs) then Configs else SSHKeys;
    FamilyMember(state, family, entry);
  }

  lemma FamilyMember(state: SystemState, family: Family, entry: Entry)
    requires entry in FamilyBag(state, family)
    ensures Packed(state, entry)
  {
    var name :| name in state.Of(family) && entry == EntryOf(family, state.Of(family), name);
    assert FromState(state, entry, family, name);
  }

  lemma BagHas(state: SystemState, family: Family, name: string)
    requires name in state.Of(family)
    ensures EntryOf(family, state.Of(family), name) in EntryBag(state)
  {
    assert EntryOf(family, state.Of(family), name) in FamilyBag(state, family);
    match family case Certificates => case Databases => case Configs => case SSHKeys =>
  }

  /** The entries include the one of a packed file. */
  predicate Has(archive: seq<Entry>, packed: SystemState, family: Family, name: string) {
    name in packed.Of(family) && EntryOf(family, packed.Of(family), name) in archive
  }

  function Lookup(files: Files, name: string): Option<Bytes> {
    if name in files then Some(files[name]) else None
  }

  lemma PutLookup(state: SystemState, f: Family, n: string, content: Bytes, family: Family, name: string)
    ensures Lookup(Put(state, f, n, content).Of(family), name)
         == if f == family && n == name then Some(content) else Lookup(state.Of(family), name)
  {
  }

  /** Unpacking files of a packed state: a name that occurs gets its packed content, any other
      keeps what it had. */
  lemma {:induction false} UnpackedPointwise(state: SystemState, archive: seq<Entry>, packed: SystemState,
                                             decode: Decoder, family: Family, name: string)
    requires forall e | e in archive :: Packed(packed, e)
    ensures var r := UnpackedFrom(state, archive, decode);
            && r.Some?
            && Lookup(r.value.Of(family), name)
                 == if Has(archive, packed, family, name) then Some(packed.Of(family)[name])
                    else Lookup(state.Of(family), name)
    decreases |archive|
  {
    if archive != [] {
      assert Packed(packed, archive[0]);
      var f, n :| FromState(packed, archive[0], f, n);
      PackedName(f, n);
      RoutedBack(state, f, packed.Of(f), n);
      PutLookup(state, f, n, packed.Of(f)[n], family, name);
      UnpackedPointwise(Routed(state, archive[0]), archive[1..], packed, decode, family, name);
      if name in packed.Of(family) {
        OnlyFrom(packed, archive[0], f, n, family, name);
        assert archive == [archive[0]] + archive[1..];
      }
    }
  }

  lemma OnlyFrom(packed: SystemState, entry: Entry, f: Family, n: string, family: Family, name: string)
    requires FromState(packed, entry, f, n)
    ensures FromState(packed, entry, family, name) <==> f == family && n == name
  {
    if FromState(packed, entry, family, name) {
      PackedName(f, n);
      PackedName(family, name);
      PrefixesExclusive(entry.name, f, family);
      SamePrefix(Prefix(f), n, name);
    }
  }

  /** For every order of writing and of trying prefixes, each unpacked map is the one that came
      with the metadata, overridden by the packed one. */
  lemma UnpackedIs(packed: SystemState, metadata: Bytes, archive: seq<Entry>, decode: Decoder,
                   decoded: SystemState, family: Family)
    requires PackedAs(archive, packed, metadata)
    requires decode(metadata) == Some(decoded)
    ensures UnpackedFrom(NOTHING, archive, decode).Some?
    ensures UnpackedFrom(NOTHING, archive, decode).value.Of(family) == decoded.Of(family) + packed.Of(family)
  {
    var files := archive[1..];
    forall e | e in files
      ensures Packed(packed, e)
    {
      assert e in multiset(files);
      BagMember(packed, e);
    }
    var start := Merged(NOTHING, decoded);
    StartsFrom(decoded, family);
    assert UnpackedFrom(NOTHING, archive, decode) == UnpackedFrom(start, files, decode);
    UnpackedPointwise(start, files, packed, decode, family, "");
    var r := UnpackedFrom(start, files, decode).value;
    forall name
      ensures Lookup(r.Of(family), name) == Lookup(decoded.Of(family) + packed.Of(family), name)
    {
      UnpackedPointwise(start, files, packed, decode, family, name);
      BagHasAll(packed, files, family, name);
    }
    SameLookups(r.Of(family), decoded.Of(family) + packed.Of(family));
  }

  lemma BagHasAll(packed: SystemState, files: seq<Entry>, family: Family, name: string)
    requires multiset(files) == EntryBag(packed)
    ensures Has(files, packed, family, name) <==> name in packed.Of(family)
  {
    if name in packed.Of(family) {
      BagHas(packed, family, name);
      assert EntryOf(family, packed.Of(family), name) in multiset(files);
    }
  }

  lemma StartsFrom(decoded: SystemState, family: Family)
    ensures Merged(NOTHING, decoded).Of(family) == decoded.Of(family)
  {
  }

  lemma SameLookups(a: Files, b: Files)
    requires forall name :: Lookup(a, name) == Lookup(b, name)
    ensures a == b
  {
    forall name
      ensures name in a <==> name in b
      ensures name in a && name in b ==> a[name] == b[name]
    {
      assert Lookup(a, name) == Lookup(b, name);
    }
  }

  /** Routing inverts packing exactly when the metadata brings no name that was not packed: for
      metadata that round-trips, or that leaves the maps out, every map comes back. */
  lemma RoutingInverts(packed: SystemState, metadata: Bytes, archive: seq<Entry>, decode: Decoder)
    requires PackedAs(archive, packed, metadata)
    ensures UnpackedFrom(NOTHING, archive, decode) == Some(packed) <==> BringsNothing(decode(metadata), packed)
  {
    if decode(metadata).Some? {
      RoutingInvertsDecoded(packed, metadata, archive, decode, decode(metadata).value);
    }
  }

  /** What Pack makes of a state. */
  ghost predicate PackedAs(archive: seq<Entry>, packed: SystemState, metadata: Bytes) {
    && archive != [] && archive[0] == Entry(METADATA_NAME, metadata)
    && multiset(archive[1..]) == EntryBag(packed)
  }

  /** The metadata can be decoded and has no file names of its own. */
  ghost predicate BringsNothing(decoded: Option<SystemState>, packed: SystemState) {
    && decoded.Some?
    && forall family :: decoded.value.Of(family).Keys <= packed.Of(family).Keys
  }

  lemma RoutingInvertsDecoded(packed: SystemState, metadata: Bytes, archive: seq<Entry>, decode: Decoder,
                              decoded: SystemState)
    requires PackedAs(archive, packed, metadata) && decode(metadata) == Some(decoded)
    ensures UnpackedFrom(NOTHING, archive, decode) == Some(packed)
       <==> forall family :: decoded.Of(family).Keys <= packed.Of(family).Keys
  {
    forall family
      ensures UnpackedFrom(NOTHING, archive, decode).Some?
      ensures UnpackedFrom(NOTHING, archive, decode).value.Of(family) == decoded.Of(family) + packed.Of(family)
    {
      UnpackedIs(packed, metadata, archive, decode, decoded, family);
    }
    var r := UnpackedFrom(NOTHING, archive, decode).value;
    SameMaps(r, packed);
    forall family
      ensures r.Of(family) == packed.Of(family) <==> decoded.Of(family).Keys <= packed.Of(family).Keys
    {
      OverriddenBy(decoded.Of(family), packed.Of(family));
    }
  }

  lemma SameMaps(a: SystemState, b: SystemState)
    ensures a == b <==> forall family :: a.Of(family) == b.Of(family)
  {
    if forall family :: a.Of(family) == b.Of(family) {
      assert a.Of(Certificates) == b.Of(Certificates) && a.Of(Databases) == b.Of(Databases);
      assert a.Of(Configs) == b.Of(Configs) && a.Of(SSHKeys) == b.Of(SSHKeys);
    }
  }

  lemma OverriddenBy(a: Files, b: Files)
    ensures a + b == b <==> a.Keys <= b.Keys
  {
    assert (a + b).Keys == a.Keys + b.Keys;
  }

  // ---------- the names, spelled out ----------

  /** Every entry after the metadata is a file under the name of its map, and every file is there. */
  lemma NamesSpelled(archive: seq<Entry>, packed: SystemState, metadata: Bytes, name: string)
    requires PackedAs(archive, packed, metadata)
    ensures archive[0] == Entry("STATE.yaml", metadata)
    ensures name in packed.certificates ==> Entry("certs/" + name, packed.certificates[name]) in archive[1..]
    ensures name in packed.databases ==> Entry("databases/" + name, packed.databases[name]) in archive[1..]
    ensures name in packed.configs ==> Entry("configs/" + name, packed.configs[name]) in archive[1..]
    ensures name in packed.sshPublicKeys ==> Entry("ssh_keys/" + name, packed.sshPublicKeys[name]) in archive[1..]
    ensures |archive| == 1 + |packed.certificates| + |packed.databases| + |packed.configs| + |packed.sshPublicKeys|
  {
    var files := archive[1..];
    forall family | name in packed.Of(family)
      ensures EntryOf(family, packed.Of(family), name) in files
    {
      BagHas(packed, family, name);
      assert EntryOf(family, packed.Of(family), name) in multiset(files);
    }
    InMaps(packed, files, name);
    assert |multiset(files)| == |files|;
    EntriesCount(Certificates, packed.certificates, packed.certificates.Keys);
    EntriesCount(Databases, packed.databases, packed.databases.Keys);
    EntriesCount(Configs, packed.configs, packed.configs.Keys);
    EntriesCount(SSHKeys, packed.sshPublicKeys, packed.sshPublicKeys.Keys);
  }

  lemma InMaps(packed: SystemState, files: seq<Entry>, name: string)
    requires forall family | name in packed.Of(family) :: EntryOf(family, packed.Of(family), name) in files
    ensures name in packed.certificates ==> Entry("certs/" + name, packed.certificates[name]) in files
    ensures name in packed.databases ==> Entry("databases/" + name, packed.databases[name]) in files
    ensures name in packed.configs ==> Entry("configs/" + name, packed.configs[name]) in files
    ensures name in packed.sshPublicKeys ==> Entry("ssh_keys/" + name, packed.sshPublicKeys[name]) in files
  {
    assert packed.Of(Certificates) == packed.certificates && packed.Of(Databases) == packed.databases;
    assert packed.Of(Configs) == packed.configs && packed.Of(SSHKeys) == packed.sshPublicKeys;
  }

  lemma {:induction false} EntriesCount(family: Family, files: Files, names: set<string>)
    requires names <= files.Keys
    ensures |EntriesOf(family, files, names)| == |names|
    decreases |names|
  {
    if name :| name in names {
      var others := names - {name};
      EntriesCount(family, files, others);
      forall other | other in others
        ensures EntryOf(family, files, other) != EntryOf(family, files, name)
      {
        SamePrefix(Prefix(family), other, name);
      }
      assert EntriesOf(family, files, names) == EntriesOf(family, files, others) + {EntryOf(family, files, name)};
    } else {
      assert EntriesOf(family, files, names) == {};
    }
  }

  /** An entry under one of the four names goes into the map of that name, and any other entry than
      the metadata is dropped. */
  lemma RoutingSpelled(state: SystemState, name: string, content: Bytes)
    ensures Routed(state, Entry("certs/" + name, content))
         == state.(certificates := state.certificates[name := content])
    ensures Routed(state, Entry("databases/" + name, content)) == state.(databases := state.databases[name := content])
    ensures Routed(state, Entry("configs/" + name, content)) == state.(configs := state.configs[name := content])
    ensures Routed(state, Entry("ssh_keys/" + name, content))
         == state.(sshPublicKeys := state.sshPublicKeys[name := content])
    ensures !("certs/" <= name) && !("databases/" <= name) && !("configs/" <= name) && !("ssh_keys/" <= name) ==>
              Routed(state, Entry(name, content)) == state
  {
    OneRouted(state, Certificates, name, content);
    OneRouted(state, Databases, name, content);
    OneRouted(state, Configs, name, content);
    OneRouted(state, SSHKeys, name, content);
  }

  lemma OneRouted(state: SystemState, family: Family, name: string, content: Bytes)
    ensures Routed(state, Entry(Prefix(family) + name, content)) == Put(state, family, name, content)
  {
    PackedName(family, name);
    RoutedIs(state, Entry(Prefix(family) + name, content), family);
  }
}
