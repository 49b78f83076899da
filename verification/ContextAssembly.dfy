/**
  The layered instruction set of a session: its order of precedence, its accounting, and the
  hash that identifies it.
 */
module ContextAssembly {
  import opened Prelude
  import opened Sorting
  import opened LengthPrefix
  import opened SkillRouting

  datatype Layer = Layer(kind: string, name: string, content: Bytes, hash: Digest, bytes: nat, tokens: nat)

  const HOUSE_RULES := "house_rules"
  const PROJECT_INSTRUCTIONS := "project_instructions"
  const ENV_OVERLAY := "env_overlay"
  const SKILL := "skill"
  const TOOL_CONTRACT := "tool_contract"

  /** Precedence; an unknown kind has none. */
  function Rank(kind: string): Option<nat> {
    if kind == HOUSE_RULES then Some(1)
    else if kind == PROJECT_INSTRUCTIONS then Some(2)
    else if kind == ENV_OVERLAY then Some(3)
    else if kind == SKILL then Some(4)
    else if kind == TOOL_CONTRACT then Some(5)
    else None
  }

  function RankOrZero(kind: string): nat {
    var r := Rank(kind);
    if r.Some? then r.value else 0
  }

  predicate RankLe(a: Layer, b: Layer) {
    RankOrZero(a.kind) <= RankOrZero(b.kind)
  }

  /** What the surroundings fix: the hash, the encoding of text, and the token estimate. */
  datatype Tools = Tools(sha: Bytes -> Digest, utf8: string -> Bytes, estimate: Bytes -> nat) {
    ghost predicate Faithful() {
      CollisionFree(sha) && forall a, b :: utf8(a) == utf8(b) ==> a == b
    }
  }

  function NewLayer(t: Tools, kind: string, name: string, content: Bytes): Layer {
    Layer(kind, name, content, t.sha(content), |content|, t.estimate(content))
  }

  // ---------------------------------------------------------------------------
  // The assembly hash
  // ---------------------------------------------------------------------------

  /** "opslify.context.v1" */
  const VERSION: Bytes := [111, 112, 115, 108, 105, 102, 121, 46, 99, 111, 110, 116, 101, 120, 116, 46, 118, 49]

  function LayerBytes(t: Tools, l: Layer): Bytes {
    Field(t.utf8(l.kind)) + [BAR] + (Field(t.utf8(l.name)) + [BAR] + (Field(t.utf8(l.hash)) + [NEWLINE]))
  }

  function LayersBytes(t: Tools, layers: seq<Layer>): Bytes {
    Concat((l: Layer) => LayerBytes(t, l), layers)
  }

  function Preimage(t: Tools, layers: seq<Layer>): Bytes {
    VERSION + [NEWLINE] + LayersBytes(t, layers)
  }

  /** The bytes themselves: "opslify.context.v1" and a newline, then for each layer its kind, name
      and content hash, each after its length in bytes, between bars and with a newline at the end. */
  lemma PreimageBytes(t: Tools, layers: seq<Layer>, l: Layer)
    ensures Preimage(t, []) ==
              [111, 112, 115, 108, 105, 102, 121, 46, 99, 111, 110, 116, 101, 120, 116, 46, 118, 49, 10]
    ensures var kind, name, hash := t.utf8(l.kind), t.utf8(l.name), t.utf8(l.hash);
            Preimage(t, layers + [l]) ==
              Preimage(t, layers) + ((Decimal(|kind|) + [58] + kind) + [124] + (Decimal(|name|) + [58] + name) + [124]
                                     + (Decimal(|hash|) + [58] + hash) + [10])
  {
    ConcatBack((l: Layer) => LayerBytes(t, l), layers, l);
    Flat(Field(t.utf8(l.kind)), [124], Field(t.utf8(l.name)), [124], Field(t.utf8(l.hash)), [10]);
    Regroup(VERSION + [NEWLINE], LayersBytes(t, layers), LayerBytes(t, l));
  }

  lemma Regroup(a: Bytes, b: Bytes, c: Bytes)
    ensures a + (b + c) == a + b + c
  {
  }

  method AssemblyHash(t: Tools, layers: seq<Layer>) returns (digest: Digest)
    ensures digest == t.sha(Preimage(t, layers))
  {
    var rendered := AppendAll((l: Layer) => LayerBytes(t, l), layers);
    digest := t.sha(VERSION + [NEWLINE] + rendered);
  }

  /** What the hash is meant to identify of a layer. */
  datatype Identity = Identity(kind: Bytes, name: Bytes, hash: Bytes)

  function IdentityOf(t: Tools, l: Layer): Identity {
    Identity(t.utf8(l.kind), t.utf8(l.name), t.utf8(l.hash))
  }

  function Identities(t: Tools, layers: seq<Layer>): (ids: seq<Identity>)
    ensures |ids| == |layers|
  {
    seq(|layers|, i requires 0 <= i < |layers| => IdentityOf(t, layers[i]))
  }

  function ReadLayer(s: Bytes): (r: Option<(Identity, Bytes)>)
    ensures r.Some? ==> |r.value.1| < |s|
  {
    match ReadFieldThen(s, BAR)
    case None => None
    case Some((kind, afterKind)) =>
      match ReadFieldThen(afterKind, BAR)
      case None => None
      case Some((name, afterName)) =>
        match ReadFieldThen(afterName, NEWLINE)
        case None => None
        case Some((hash, rest)) => Some((Identity(kind, name, hash), rest))
  }

  function ReadLayers(s: Bytes): Option<seq<Identity>>
    decreases |s|
  {
    if s == [] then Some([])
    else
      match ReadLayer(s)
      case None => None
      case Some((id, rest)) =>
        match ReadLayers(rest)
        case None => None
        case Some(more) => Some([id] + more)
  }

  lemma LayerReads(t: Tools, l: Layer, rest: Bytes)
    ensures ReadLayer(LayerBytes(t, l) + rest) == Some((IdentityOf(t, l), rest))
  {
    var afterName := Field(t.utf8(l.hash)) + [NEWLINE] + rest;
    var afterKind := Field(t.utf8(l.name)) + [BAR] + afterName;
    assert LayerBytes(t, l) + rest == Field(t.utf8(l.kind)) + [BAR] + afterKind;
    FieldThenReads(t.utf8(l.kind), BAR, afterKind);
    FieldThenReads(t.utf8(l.name), BAR, afterName);
    FieldThenReads(t.utf8(l.hash), NEWLINE, rest);
  }

  lemma {:induction false} LayersRead(t: Tools, layers: seq<Layer>)
    ensures ReadLayers(LayersBytes(t, layers)) == Some(Identities(t, layers))
    decreases |layers|
  {
    if layers == [] {
    } else {
      ConcatFront((l: Layer) => LayerBytes(t, l), layers);
      LayersRead(t, layers[1..]);
      FirstReads(t, layers[0], LayersBytes(t, layers[1..]), Identities(t, layers[1..]));
      IdentitiesFront(t, layers);
    }
  }

  lemma IdentitiesFront(t: Tools, layers: seq<Layer>)
    requires layers != []
    ensures Identities(t, layers) == [IdentityOf(t, layers[0])] + Identities(t, layers[1..])
  {
  }

  lemma FirstReads(t: Tools, l: Layer, rest: Bytes, more: seq<Identity>)
    requires ReadLayers(rest) == Some(more)
    ensures ReadLayers(LayerBytes(t, l) + rest) == Some([IdentityOf(t, l)] + more)
  {
    LayerReads(t, l, rest);
    assert ReadLayer(LayerBytes(t, l) + rest).Some?;
  }

  /** The preimage determines the ordered list of kinds, names and content hashes. */
  lemma PreimageDetermines(t: Tools, a: seq<Layer>, b: seq<Layer>)
    requires Preimage(t, a) == Preimage(t, b)
    ensures Identities(t, a) == Identities(t, b)
  {
    LayersRead(t, a);
    LayersRead(t, b);
    assert Preimage(t, a)[|VERSION|+1..] == LayersBytes(t, a);
    assert Preimage(t, b)[|VERSION|+1..] == LayersBytes(t, b);
  }

  ghost predicate Built(t: Tools, layers: seq<Layer>) {
    forall i :: 0 <= i < |layers| ==> layers[i] == NewLayer(t, layers[i].kind, layers[i].name, layers[i].content)
  }

  /** Two instruction sets share a hash exactly when they are the same layers: same kinds, same
      names, same contents, in the same order. */
  lemma HashIdentifiesInstructions(t: Tools, a: seq<Layer>, b: seq<Layer>)
    requires t.Faithful() && Built(t, a) && Built(t, b)
    ensures t.sha(Preimage(t, a)) == t.sha(Preimage(t, b)) <==> a == b
  {
    if t.sha(Preimage(t, a)) == t.sha(Preimage(t, b)) {
      PreimageDetermines(t, a, b);
      forall i | 0 <= i < |a| ensures a[i] == b[i] {
        assert IdentityOf(t, a[i]) == Identities(t, a)[i] == Identities(t, b)[i] == IdentityOf(t, b[i]);
        SameIdentitySameLayer(t, a[i], b[i]);
      }
      assert |Identities(t, a)| == |Identities(t, b)|;
    }
  }

  lemma SameIdentitySameLayer(t: Tools, a: Layer, b: Layer)
    requires t.Faithful() && IdentityOf(t, a) == IdentityOf(t, b)
    requires a == NewLayer(t, a.kind, a.name, a.content) && b == NewLayer(t, b.kind, b.name, b.content)
    ensures a == b
  {
    assert t.sha(a.content) == t.sha(b.content);
  }

  // ---------------------------------------------------------------------------
  // Assembling
  // ---------------------------------------------------------------------------

  /** Reading one file: its bytes, nothing there, or a source that must not be used. */
  datatype Load = Loaded(content: Bytes) | Absent | Unsafe

  /** Where the house-rules file lies, links resolved, as seen from a workspace. */
  datatype Place = Outside | Inside | Unresolved

  /** The daemon's house-rules file: whether it is there and well kept, and what reading it yields. */
  datatype HouseFile = NoFile | IllKept | WellKept(read: Load)

  datatype ToolContract = ToolContract(tool: string, body: Bytes)

  /** The file name of a skill pack. */
  type PackFile = file: string | |file| >= 3 && file[|file|-3..] == ".md" witness ".md"

  /** Everything read from a workspace. `skills` maps the files of the skill packs to what
      reading them yields. */
  datatype Workspace = Workspace(instructions: Load, overlay: Load, listable: bool, skills: map<PackFile, Load>)

  datatype Sources = Sources(house: HouseFile, place: Place, envOk: bool, env: string, workspace: Workspace,
                             capabilities: map<string, string>, roles: seq<string>, contracts: seq<ToolContract>,
                             budget: int)

  const DEFAULT_BUDGET := 24000
  const MAX_TOTAL_BYTES := 4194304

  datatype Warning = OverBudget(tokens: nat, budget: int) | NoPack(tool: string)

  datatype Assembly = Assembly(layers: seq<Layer>, hash: Digest, routing: Routing, bytes: nat, tokens: nat,
                               budget: int, overrun: bool, warnings: seq<Warning>)

  datatype Error = InvalidInput | UnsafeSource

  type Outcome = Result<Assembly, Error>

  function PackName(file: string): string {
    if |file| >= 3 then file[..|file|-3] else file
  }

  function OneLayer(t: Tools, kind: string, name: string, load: Load): seq<Layer> {
    if load.Loaded? then [NewLayer(t, kind, name, load.content)] else []
  }

  /** What loading the house rules yields, given where the file lies. A file gone by the time it
      is read is as unsafe as an unreadable one. */
  function HouseLoad(h: HouseFile, place: Place): Result<Load, Error> {
    match h
    case NoFile => Success(Absent)
    case IllKept => Failure(UnsafeSource)
    case WellKept(read) =>
      if place.Unresolved? then Failure(InvalidInput)
      else if place.Inside? || !read.Loaded? then Failure(UnsafeSource)
      else Success(read)
  }

  /** The layers of the daemon's file, wherever it may be used. */
  function DaemonLayers(t: Tools, h: HouseFile): seq<Layer> {
    if h.WellKept? then OneLayer(t, HOUSE_RULES, "house-rules", h.read) else []
  }

  predicate Picked(selection: Option<set<string>>, file: string) {
    selection.None? || PackName(file) in selection.value
  }

  predicate SkillsUnsafe(w: Workspace, selection: Option<set<string>>) {
    !w.listable || exists file :: file in w.skills && Picked(selection, file) && w.skills[file].Unsafe?
  }

  /** What one skill file adds: its layer, if it is picked and there. */
  function SkillLayer(t: Tools, w: Workspace, selection: Option<set<string>>, file: string): seq<Layer> {
    if file in w.skills && Picked(selection, file)
    then OneLayer(t, SKILL, "skills/" + PackName(file), w.skills[file])
    else []
  }

  /** The layers of the picked skill files, in file-name order. */
  function SkillLayers(t: Tools, w: Workspace, selection: Option<set<string>>, files: seq<string>): seq<Layer> {
    if files == [] then []
    else
      SkillLayers(t, w, selection, files[..|files|-1]) + SkillLayer(t, w, selection, files[|files|-1])
  }

  function ContractLayer(t: Tools, c: ToolContract): Layer {
    NewLayer(t, TOOL_CONTRACT, "tools/" + c.tool, c.body)
  }

  function ContractLayers(t: Tools, contracts: seq<ToolContract>): seq<Layer> {
    if contracts == [] then []
    else
      var c := contracts[|contracts|-1];
      ContractLayers(t, contracts[..|contracts|-1])
      + if c.body == [] then [] else [ContractLayer(t, c)]
  }

  /** The skill packs on disk. */
  function Available(w: Workspace): set<string> {
    set file | file in w.skills :: PackName(file)
  }

  ghost function RoutingOf(s: Sources): Routing {
    RouteOf(s.capabilities, s.roles, SortedSet(Available(s.workspace)))
  }

  /** The layers in order of precedence: house rules, project, environment, skills, contracts. */
  ghost function LayersOf(t: Tools, s: Sources): seq<Layer> {
    DaemonLayers(t, s.house)
    + OneLayer(t, PROJECT_INSTRUCTIONS, "instructions", s.workspace.instructions)
    + OneLayer(t, ENV_OVERLAY, "env/" + s.env, EnvLoad(s))
    + SkillLayers(t, s.workspace, SelectionSet(RoutingOf(s)), SortedSet(s.workspace.skills.Keys))
    + ContractLayers(t, s.contracts)
  }

  function EnvLoad(s: Sources): Load {
    if s.env == "" then Absent else s.workspace.overlay
  }

  ghost predicate AnySourceUnsafe(s: Sources) {
    || s.house.IllKept? || (s.house.WellKept? && (!s.place.Outside? || !s.house.read.Loaded?))
    || s.workspace.instructions.Unsafe? || (s.env != "" && s.workspace.overlay.Unsafe?)
    || SkillsUnsafe(s.workspace, SelectionSet(RoutingOf(s)))
  }

  function TotalBytes(layers: seq<Layer>): nat {
    if layers == [] then 0 else TotalBytes(layers[..|layers|-1]) + layers[|layers|-1].bytes
  }

  function TotalTokens(layers: seq<Layer>): nat {
    if layers == [] then 0 else TotalTokens(layers[..|layers|-1]) + layers[|layers|-1].tokens
  }

  /** All of one kind, and no kind unranked. */
  ghost predicate AllOf(layers: seq<Layer>, kind: string) {
    forall i :: 0 <= i < |layers| ==> layers[i].kind == kind
  }

  lemma {:induction false} SkillLayersAreSkills(t: Tools, w: Workspace, selection: Option<set<string>>,
                                                files: seq<string>)
    ensures AllOf(SkillLayers(t, w, selection, files), SKILL) && Built(t, SkillLayers(t, w, selection, files))
  {
    if files == [] {
    } else {
      SkillLayersAreSkills(t, w, selection, files[..|files|-1]);
    }
  }

  lemma {:induction false} ContractLayersAreContracts(t: Tools, contracts: seq<ToolContract>)
    ensures AllOf(ContractLayers(t, contracts), TOOL_CONTRACT) && Built(t, ContractLayers(t, contracts))
  {
    if contracts == [] {
    } else {
      ContractLayersAreContracts(t, contracts[..|contracts|-1]);
    }
  }

  lemma RanksDiffer()
    ensures Rank(HOUSE_RULES) == Some(1) && Rank(PROJECT_INSTRUCTIONS) == Some(2) && Rank(ENV_OVERLAY) == Some(3)
    ensures Rank(SKILL) == Some(4) && Rank(TOOL_CONTRACT) == Some(5)
  {
    assert HOUSE_RULES[0] != ENV_OVERLAY[0];
    assert |PROJECT_INSTRUCTIONS| == 20 && |SKILL| == 5 && |TOOL_CONTRACT| == 13 && |HOUSE_RULES| == 11;
  }

  /** Ordered layers, built by NewLayer, of rank at most `r`. */
  ghost predicate Upto(t: Tools, layers: seq<Layer>, r: nat) {
    && SortedBy(layers, RankLe) && Built(t, layers)
    && forall i :: 0 <= i < |layers| ==> Rank(layers[i].kind).Some? && Rank(layers[i].kind).value <= r
  }

  lemma Join(t: Tools, front: seq<Layer>, back: seq<Layer>, kind: string, r: nat)
    requires Upto(t, front, r) && AllOf(back, kind) && Built(t, back) && Rank(kind) == Some(r)
    ensures Upto(t, front + back, r)
  {
    var all := front + back;
    forall i | 0 <= i < |all|
      ensures Rank(all[i].kind).Some? && Rank(all[i].kind).value <= r
      ensures all[i] == NewLayer(t, all[i].kind, all[i].name, all[i].content)
    {
    }
    forall i, j | 0 <= i < j < |all| ensures RankLe(all[i], all[j]) {
    }
  }

  lemma Upward(t: Tools, layers: seq<Layer>, r: nat)
    requires Upto(t, layers, r)
    ensures Upto(t, layers, r + 1)
  {
  }

  lemma LayersAreRanked(t: Tools, s: Sources)
    ensures Upto(t, LayersOf(t, s), 5)
  {
    var selection, files := SelectionSet(RoutingOf(s)), SortedSet(s.workspace.skills.Keys);
    SkillLayersAreSkills(t, s.workspace, selection, files);
    ContractLayersAreContracts(t, s.contracts);
    FiveRanks(t, DaemonLayers(t, s.house), OneLayer(t, PROJECT_INSTRUCTIONS, "instructions", s.workspace.instructions),
              OneLayer(t, ENV_OVERLAY, "env/" + s.env, EnvLoad(s)), SkillLayers(t, s.workspace, selection, files),
              ContractLayers(t, s.contracts));
  }

  lemma FiveRanks(t: Tools, house: seq<Layer>, project: seq<Layer>, overlay: seq<Layer>, skills: seq<Layer>,
                  contracts: seq<Layer>)
    requires AllOf(house, HOUSE_RULES) && AllOf(project, PROJECT_INSTRUCTIONS) && AllOf(overlay, ENV_OVERLAY)
    requires AllOf(skills, SKILL) && AllOf(contracts, TOOL_CONTRACT)
    requires Built(t, house) && Built(t, project) && Built(t, overlay) && Built(t, skills) && Built(t, contracts)
    ensures Upto(t, house + project + overlay + skills + contracts, 5)
  {
    RanksDiffer();
    Upward(t, [], 0);
    Join(t, [], house, HOUSE_RULES, 1);
    assert [] + house == house;
    Upward(t, house, 1);
    Join(t, house, project, PROJECT_INSTRUCTIONS, 2);
    Upward(t, house + project, 2);
    Join(t, house + project, overlay, ENV_OVERLAY, 3);
    Upward(t, house + project + overlay, 3);
    Join(t, house + project + overlay, skills, SKILL, 4);
    Upward(t, house + project + overlay + skills, 4);
    Join(t, house + project + overlay + skills, contracts, TOOL_CONTRACT, 5);
  }

  lemma {:induction false} SkillLayersExactly(t: Tools, w: Workspace, selection: Option<set<string>>,
                                              files: seq<string>, l: Layer)
    ensures l in SkillLayers(t, w, selection, files) <==>
              exists file :: file in files && l in SkillLayer(t, w, selection, file)
  {
    if files == [] {
    } else {
      var n := |files| - 1;
      assert files == files[..n] + [files[n]];
      SkillLayersExactly(t, w, selection, files[..n], l);
    }
  }

  lemma {:induction false} ContractLayersExactly(t: Tools, contracts: seq<ToolContract>, l: Layer)
    ensures l in ContractLayers(t, contracts) <==>
              exists c :: c in contracts && c.body != [] && l == ContractLayer(t, c)
  {
    if contracts == [] {
    } else {
      var n := |contracts| - 1;
      assert contracts == contracts[..n] + [contracts[n]];
      ContractLayersExactly(t, contracts[..n], l);
    }
  }

  /** Nothing is dropped and nothing added: a layer is in the assembly exactly if one of the five
      sources holds it. */
  lemma LayersExactly(t: Tools, s: Sources, l: Layer)
    ensures l in LayersOf(t, s) <==>
      || l in DaemonLayers(t, s.house)
      || l in OneLayer(t, PROJECT_INSTRUCTIONS, "instructions", s.workspace.instructions)
      || l in OneLayer(t, ENV_OVERLAY, "env/" + s.env, EnvLoad(s))
      || (exists file :: file in s.workspace.skills
                         && l in SkillLayer(t, s.workspace, SelectionSet(RoutingOf(s)), file))
      || (exists c :: c in s.contracts && c.body != [] && l == ContractLayer(t, c))
  {
    var files := SortedSet(s.workspace.skills.Keys);
    SkillLayersExactly(t, s.workspace, SelectionSet(RoutingOf(s)), files, l);
    assert forall file :: file in files <==> file in Elements(files);
    ContractLayersExactly(t, s.contracts, l);
  }

  /** A stable sort leaves an already ordered list as it is. */
  lemma {:induction false} SortOfSorted<T(!new)>(xs: seq<T>, le: (T, T) -> bool)
    requires SortedBy(xs, le)
    ensures Sort(xs, le) == xs
  {
    if xs == [] {
    } else {
      SortOfSorted(xs[1..], le);
      assert |xs| > 1 ==> le(xs[0], xs[1]);
    }
  }

  predicate SafeFile(w: Workspace, selection: Option<set<string>>, file: string) {
    file in w.skills && Picked(selection, file) ==> !w.skills[file].Unsafe?
  }

  lemma AllSafe(w: Workspace, selection: Option<set<string>>, names: seq<string>)
    requires Elements(names) == w.skills.Keys && w.listable
    requires forall j :: 0 <= j < |names| ==> SafeFile(w, selection, names[j])
    ensures !SkillsUnsafe(w, selection)
  {
    forall file | file in w.skills && Picked(selection, file) ensures !w.skills[file].Unsafe? {
      assert file in Elements(names);
      assert SafeFile(w, selection, file);
    }
  }

  /** The first `i` names are loaded and none of them had to be refused. */
  ghost predicate LoadedSoFar(t: Tools, w: Workspace, selection: Option<set<string>>, names: seq<string>, i: nat,
                              out: seq<Layer>)
    requires i <= |names|
  {
    out == SkillLayers(t, w, selection, names[..i]) && forall j :: 0 <= j < i ==> SafeFile(w, selection, names[j])
  }

  lemma SkillStep(t: Tools, w: Workspace, selection: Option<set<string>>, names: seq<string>, i: nat, file: PackFile,
                  out: seq<Layer>)
    requires i < |names| && names[i] == file && file in w.skills && LoadedSoFar(t, w, selection, names, i, out)
    ensures !Picked(selection, file) ==> LoadedSoFar(t, w, selection, names, i + 1, out)
    ensures Picked(selection, file) ==>
              if w.skills[file].Unsafe? then SkillsUnsafe(w, selection)
              else LoadedSoFar(t, w, selection, names, i + 1,
                               out + OneLayer(t, SKILL, "skills/" + PackName(file), w.skills[file]))
  {
    assert names[..i+1][..i] == names[..i];
  }

  lemma AllNamed(w: Workspace, names: seq<string>)
    requires Elements(names) == w.skills.Keys
    ensures forall i :: 0 <= i < |names| ==> names[i] in w.skills
  {
    assert forall i :: 0 <= i < |names| ==> names[i] in Elements(names);
  }

  /** Load the named skill files in order, stopping at one that must not be used. */
  method LoadNamed(t: Tools, w: Workspace, selection: Option<set<string>>, names: seq<string>)
    returns (layers: Option<seq<Layer>>)
    requires Elements(names) == w.skills.Keys && w.listable
    ensures layers == if SkillsUnsafe(w, selection) then None else Some(SkillLayers(t, w, selection, names))
  {
    AllNamed(w, names);
    var out: seq<Layer> := [];
    for i := 0 to |names|
      invariant LoadedSoFar(t, w, selection, names, i, out)
    {
      var file: PackFile := names[i];
      SkillStep(t, w, selection, names, i, file, out);
      if Picked(selection, file) {
        if w.skills[file].Unsafe? {
          return None;
        }
        out := out + OneLayer(t, SKILL, "skills/" + PackName(file), w.skills[file]);
      }
    }
    assert names[..|names|] == names;
    AllSafe(w, selection, names);
    layers := Some(out);
  }

  method LoadSkills(t: Tools, w: Workspace, selection: Option<set<string>>) returns (layers: Option<seq<Layer>>)
    ensures layers == if SkillsUnsafe(w, selection) then None
                      else Some(SkillLayers(t, w, selection, SortedSet(w.skills.Keys)))
  {
    if !w.listable {
      return None;
    }
    var names := SortedKeys(w.skills.Keys);
    layers := LoadNamed(t, w, selection, names);
  }

  method Contracts(t: Tools, contracts: seq<ToolContract>) returns (layers: seq<Layer>)
    ensures layers == ContractLayers(t, contracts)
  {
    layers := [];
    var i := 0;
    while i < |contracts|
      invariant 0 <= i <= |contracts| && layers == ContractLayers(t, contracts[..i])
    {
      assert contracts[..i+1][..i] == contracts[..i];
      if contracts[i].body != [] {
        layers := layers + [ContractLayer(t, contracts[i])];
      }
      i := i + 1;
    }
    assert contracts[..i] == contracts;
  }

  /** Refuse a layer whose kind has no rank. */
  method CheckKinds(layers: seq<Layer>) returns (ok: bool)
    ensures ok <==> forall i :: 0 <= i < |layers| ==> Rank(layers[i].kind).Some?
  {
    for i := 0 to |layers|
      invariant forall j :: 0 <= j < i ==> Rank(layers[j].kind).Some?
    {
      if Rank(layers[i].kind).None? {
        return false;
      }
    }
    ok := true;
  }

  method Totals(layers: seq<Layer>) returns (bytes: nat, tokens: nat)
    ensures bytes == TotalBytes(layers) && tokens == TotalTokens(layers)
  {
    bytes, tokens := 0, 0;
    var i := 0;
    while i < |layers|
      invariant 0 <= i <= |layers| && bytes == TotalBytes(layers[..i]) && tokens == TotalTokens(layers[..i])
    {
      assert layers[..i+1][..i] == layers[..i];
      bytes, tokens := bytes + layers[i].bytes, tokens + layers[i].tokens;
      i := i + 1;
    }
    assert layers[..i] == layers;
  }

  function PackWarnings(missing: seq<string>): (warnings: seq<Warning>)
    ensures |warnings| == |missing| && forall i :: 0 <= i < |missing| ==> warnings[i] == NoPack(missing[i])
  {
    seq(|missing|, i requires 0 <= i < |missing| => NoPack(missing[i]))
  }

  function EffectiveBudget(budget: int): int {
    if budget <= 0 then DEFAULT_BUDGET else budget
  }

  /** What an assembly of these sources must be. */
  ghost predicate AssembledFrom(t: Tools, s: Sources, a: Assembly) {
    && a.layers == LayersOf(t, s) && a.routing == RoutingOf(s)
    && a.bytes == TotalBytes(a.layers) <= MAX_TOTAL_BYTES && a.tokens == TotalTokens(a.layers)
    && a.hash == t.sha(Preimage(t, a.layers))
    && a.budget == EffectiveBudget(s.budget) && (a.overrun <==> a.tokens > a.budget)
    && a.warnings == (if a.overrun then [OverBudget(a.tokens, a.budget)] else []) + PackWarnings(a.routing.missing)
  }

  /** The layers short of the sort: every source is read in order of precedence, and one that
      must not be used ends the assembly. */
  method Gather(t: Tools, s: Sources) returns (layers: Option<seq<Layer>>, routing: Routing)
    ensures layers == if AnySourceUnsafe(s) then None else Some(LayersOf(t, s))
    ensures layers.Some? ==> routing == RoutingOf(s)
  {
    routing := Routing([], [], [], [], false);
    if HouseLoad(s.house, s.place).Failure? || s.workspace.instructions.Unsafe? || EnvLoad(s).Unsafe? {
      return None, routing;
    }
    var all := DaemonLayers(t, s.house)
             + OneLayer(t, PROJECT_INSTRUCTIONS, "instructions", s.workspace.instructions)
             + OneLayer(t, ENV_OVERLAY, "env/" + s.env, EnvLoad(s));
    var available := SortedKeys(Available(s.workspace));
    routing := Route(s.capabilities, s.roles, available);
    var skills := LoadSkills(t, s.workspace, SelectionSet(routing));
    if skills.None? {
      return None, routing;
    }
    var contracts := Contracts(t, s.contracts);
    layers := Some(all + skills.value + contracts);
  }

  /** What assembling these sources comes to: either every source was safe and the result is
      complete, or there is no result. */
  ghost predicate ComesTo(t: Tools, s: Sources, outcome: Outcome) {
    && (outcome.Success? <==> s.envOk && !AnySourceUnsafe(s) && TotalBytes(LayersOf(t, s)) <= MAX_TOTAL_BYTES)
    && (outcome.Success? ==> AssembledFrom(t, s, outcome.value))
    && (outcome == Failure(InvalidInput) <==> !s.envOk || (s.house.WellKept? && s.place.Unresolved?))
  }

  /** Assemble, failing closed. */
  method Assemble(t: Tools, s: Sources) returns (outcome: Outcome)
    ensures ComesTo(t, s, outcome)
  {
    if !s.envOk {
      return Failure(InvalidInput);
    }
    var gathered, routing := Gather(t, s);
    if gathered.None? {
      var house := HouseLoad(s.house, s.place);
      return if house.Failure? then Failure(house.error) else Failure(UnsafeSource);
    }
    LayersAreRanked(t, s);
    var ranked := CheckKinds(gathered.value);
    if !ranked {
      return Failure(InvalidInput);
    }
    SortOfSorted(gathered.value, RankLe);
    var layers := Sort(gathered.value, RankLe);
    var bytes, tokens := Totals(layers);
    if bytes > MAX_TOTAL_BYTES {
      return Failure(UnsafeSource);
    }
    var hash := AssemblyHash(t, layers);
    var budget := EffectiveBudget(s.budget);
    var overrun := tokens > budget;
    var warnings := (if overrun then [OverBudget(tokens, budget)] else []) + PackWarnings(routing.missing);
    outcome := Success(Assembly(layers, hash, routing, bytes, tokens, budget, overrun, warnings));
  }

  /** The layers that speak with the authority of the house rules. */
  function HouseLayers(layers: seq<Layer>): seq<Layer> {
    if layers == [] then []
    else HouseLayers(layers[..|layers|-1]) + if layers[|layers|-1].kind == HOUSE_RULES then [layers[|layers|-1]] else []
  }

  /** Take any two workspaces, environments, role hints, contracts and budgets under one daemon
      file. Each assembly is refused if the file is ill kept, cannot be read, or does not lie
      outside its workspace; otherwise it opens with that file's layer, if there is one, and
      nothing else in it has that authority. So no workspace has a say in the house rules. */
  lemma HouseRulesComeFirst(t: Tools, s: Sources, s': Sources, o: Outcome, o': Outcome)
    requires ComesTo(t, s, o) && ComesTo(t, s', o') && s'.house == s.house
    ensures s.envOk && s.house.IllKept? ==> o == Failure(UnsafeSource)
    ensures s.envOk && s.house.WellKept? && s.place.Unresolved? ==> o == Failure(InvalidInput)
    ensures s.envOk && s.house.WellKept? && (s.place.Inside? || (s.place.Outside? && !s.house.read.Loaded?)) ==>
              o == Failure(UnsafeSource)
    ensures o.Success? ==> OpensWithHouse(t, s.house, s.place, o.value.layers)
    ensures o.Success? && o'.Success? ==> HouseLayers(o.value.layers) == HouseLayers(o'.value.layers)
  {
    if s.envOk {
      HouseRefused(t, s, o);
    }
    if o.Success? {
      HouseOpens(t, s, o);
    }
    if o'.Success? {
      HouseOpens(t, s', o');
    }
  }

  lemma HouseRefused(t: Tools, s: Sources, o: Outcome)
    requires ComesTo(t, s, o) && s.envOk
    ensures s.house.IllKept? ==> o == Failure(UnsafeSource)
    ensures s.house.WellKept? && s.place.Unresolved? ==> o == Failure(InvalidInput)
    ensures s.house.WellKept? && (s.place.Inside? || (s.place.Outside? && !s.house.read.Loaded?)) ==>
              o == Failure(UnsafeSource)
  {
    ThreeWays(o);
  }

  lemma ThreeWays(o: Outcome)
    ensures o.Success? || o == Failure(InvalidInput) || o == Failure(UnsafeSource)
  {
    if o.Failure? {
      assert o.error.InvalidInput? || o.error.UnsafeSource?;
    }
  }

  lemma HouseOpens(t: Tools, s: Sources, o: Outcome)
    requires ComesTo(t, s, o) && o.Success?
    ensures OpensWithHouse(t, s.house, s.place, o.value.layers)
  {
    OnlyDaemonLayers(t, s);
    OneHouseLayer(t, s.house, s.place, o.value.layers);
  }

  /** The file's layer comes first and alone has its authority; without a file nothing has. */
  ghost predicate OpensWithHouse(t: Tools, house: HouseFile, place: Place, layers: seq<Layer>) {
    match house
    case NoFile => HouseLayers(layers) == []
    case IllKept => false
    case WellKept(read) =>
      && place.Outside? && read.Loaded? && layers != []
      && HouseLayers(layers) == layers[..1] ==
           [Layer("house_rules", "house-rules", read.content, t.sha(read.content), |read.content|,
                  t.estimate(read.content))]
  }

  lemma OneHouseLayer(t: Tools, house: HouseFile, place: Place, layers: seq<Layer>)
    requires house.NoFile? || (house.WellKept? && place.Outside? && house.read.Loaded?)
    requires var front := DaemonLayers(t, house);
             HouseLayers(layers) == front && |front| <= |layers| && front == layers[..|front|]
    ensures OpensWithHouse(t, house, place, layers)
  {
  }

  lemma {:induction false} NoHouseLayers(front: seq<Layer>, layers: seq<Layer>)
    requires forall i :: 0 <= i < |layers| ==> layers[i].kind != HOUSE_RULES
    ensures HouseLayers(front + layers) == HouseLayers(front)
    decreases |layers|
  {
    if layers == [] {
      assert front + layers == front;
    } else {
      assert (front + layers)[..|front + layers|-1] == front + layers[..|layers|-1];
      NoHouseLayers(front, layers[..|layers|-1]);
    }
  }

  lemma HouseLayersOfFront(front: seq<Layer>, rest: seq<Layer>)
    requires |front| <= 1 && (front != [] ==> front[0].kind == HOUSE_RULES)
    requires forall i :: 0 <= i < |rest| ==> rest[i].kind != HOUSE_RULES
    ensures HouseLayers(front + rest) == front == (front + rest)[..|front|]
  {
    NoHouseLayers(front, rest);
    assert front != [] ==> front[..0] == [];
  }

  lemma FirstOfFive<T>(a: seq<T>, b: seq<T>, c: seq<T>, d: seq<T>, e: seq<T>)
    ensures a + b + c + d + e == a + (b + c + d + e)
  {
  }

  lemma OnlyDaemonLayers(t: Tools, s: Sources)
    ensures var front, layers := DaemonLayers(t, s.house), LayersOf(t, s);
            HouseLayers(layers) == front && |front| <= |layers| && front == layers[..|front|]
  {
    var skills := SkillLayers(t, s.workspace, SelectionSet(RoutingOf(s)), SortedSet(s.workspace.skills.Keys));
    FirstOfFive(DaemonLayers(t, s.house),
                OneLayer(t, PROJECT_INSTRUCTIONS, "instructions", s.workspace.instructions),
                OneLayer(t, ENV_OVERLAY, "env/" + s.env, EnvLoad(s)), skills, ContractLayers(t, s.contracts));
    RestHasNoHouse(t, s);
    HouseLayersOfFront(DaemonLayers(t, s.house), RestOf(t, s));
  }

  /** Everything after the house rules. */
  ghost function RestOf(t: Tools, s: Sources): seq<Layer> {
    OneLayer(t, PROJECT_INSTRUCTIONS, "instructions", s.workspace.instructions)
    + OneLayer(t, ENV_OVERLAY, "env/" + s.env, EnvLoad(s))
    + SkillLayers(t, s.workspace, SelectionSet(RoutingOf(s)), SortedSet(s.workspace.skills.Keys))
    + ContractLayers(t, s.contracts)
  }

  lemma RestHasNoHouse(t: Tools, s: Sources)
    ensures forall i :: 0 <= i < |RestOf(t, s)| ==> RestOf(t, s)[i].kind != HOUSE_RULES
  {
    RanksDiffer();
    SkillLayersAreSkills(t, s.workspace, SelectionSet(RoutingOf(s)), SortedSet(s.workspace.skills.Keys));
    ContractLayersAreContracts(t, s.contracts);
  }

  /** Two assemblies carry the same hash exactly when they are the same instructions. */
  lemma AssemblyHashIdentifies(t: Tools, s: Sources, s': Sources, a: Assembly, a': Assembly)
    requires t.Faithful() && AssembledFrom(t, s, a) && AssembledFrom(t, s', a')
    ensures a.hash == a'.hash <==> a.layers == a'.layers
  {
    LayersAreRanked(t, s);
    LayersAreRanked(t, s');
    HashIdentifiesInstructions(t, a.layers, a'.layers);
  }

  // ---------------------------------------------------------------------------
  // The contents of an assembly and the refusals, from the sources' own fields
  // ---------------------------------------------------------------------------

  /** Whether the task asks for the pack of a tool: it names a role that the tool fills, or no
      roles at all. */
  predicate AskedFor(s: Sources, tool: string) {
    s.roles == [] ||
    (tool != "" &&
     exists role :: role in s.roles && role != "" && role in s.capabilities && s.capabilities[role] == tool)
  }

  lemma PackNameOf(tool: string)
    ensures PackName(tool + ".md") == tool
  {
  }

  lemma PackFileIs(file: PackFile)
    ensures file == PackName(file) + ".md"
  {
  }

  /** A pack on disk is picked exactly when it is asked for. */
  lemma PickedExactly(s: Sources, tool: string)
    requires tool + ".md" in s.workspace.skills
    ensures Picked(SelectionSet(RoutingOf(s)), tool + ".md") <==> AskedFor(s, tool)
  {
    PackNameOf(tool);
    var available := SortedSet(Available(s.workspace));
    OnDisk(s.workspace, tool);
    if s.roles != [] {
      RoutesExactly(s.capabilities, s.roles, available, tool);
    }
  }

  lemma OnDisk(w: Workspace, tool: string)
    ensures tool in SortedSet(Available(w)) <==> tool + ".md" in w.skills
  {
    assert tool in SortedSet(Available(w)) <==> tool in Elements(SortedSet(Available(w)));
    PackNameOf(tool);
    forall file | file in w.skills ensures file == PackName(file) + ".md" {
      PackFileIs(file);
    }
  }

  lemma SkillsUnsafeExactly(s: Sources)
    ensures SkillsUnsafe(s.workspace, SelectionSet(RoutingOf(s))) <==>
              || !s.workspace.listable
              || exists tool :: tool + ".md" in s.workspace.skills && s.workspace.skills[tool + ".md"].Unsafe? &&
                                AskedFor(s, tool)
  {
    var selection := SelectionSet(RoutingOf(s));
    if tool :| tool + ".md" in s.workspace.skills && s.workspace.skills[tool + ".md"].Unsafe? && AskedFor(s, tool) {
      PickedExactly(s, tool);
    }
    if file :| file in s.workspace.skills && Picked(selection, file) && s.workspace.skills[file].Unsafe? {
      var tool := PackName(file);
      PackFileIs(file);
      PickedExactly(s, tool);
      assert tool + ".md" in s.workspace.skills;
    }
  }

  /** What the assembly refuses, source by source. */
  lemma RefusedExactly(t: Tools, s: Sources, o: Outcome)
    requires ComesTo(t, s, o)
    ensures o == Failure(InvalidInput) <==> !s.envOk || (s.house.WellKept? && s.place.Unresolved?)
    ensures o == Failure(UnsafeSource) <==>
              && s.envOk && !(s.house.WellKept? && s.place.Unresolved?)
              && (|| s.house.IllKept? || (s.house.WellKept? && (s.place.Inside? || !s.house.read.Loaded?))
                  || s.workspace.instructions.Unsafe? || (s.env != "" && s.workspace.overlay.Unsafe?)
                  || !s.workspace.listable
                  || (exists tool :: tool + ".md" in s.workspace.skills && s.workspace.skills[tool + ".md"].Unsafe? &&
                                     AskedFor(s, tool))
                  || TotalBytes(LayersOf(t, s)) > 4194304)
  {
    ThreeWays(o);
    SkillsUnsafeExactly(s);
  }

  function LayerOf(t: Tools, kind: string, name: string, content: Bytes): Layer {
    Layer(kind, name, content, t.sha(content), |content|, t.estimate(content))
  }

  lemma KindsDiffer()
    ensures "house_rules" != "project_instructions" && "house_rules" != "env_overlay" && "house_rules" != "skill"
    ensures "house_rules" != "tool_contract" && "project_instructions" != "env_overlay"
    ensures "project_instructions" != "skill" && "project_instructions" != "tool_contract"
    ensures "env_overlay" != "skill" && "env_overlay" != "tool_contract" && "skill" != "tool_contract"
  {
    RanksDiffer();
  }

  lemma SamePrefix(prefix: string, a: string, b: string)
    ensures prefix + a == prefix + b ==> a == b
  {
    if prefix + a == prefix + b {
      assert a == (prefix + a)[|prefix|..] && b == (prefix + b)[|prefix|..];
    }
  }

  lemma OneLayerHolds(t: Tools, kind: string, name: string, load: Load, l: Layer, content: Bytes)
    requires l == LayerOf(t, l.kind, l.name, content)
    ensures l in OneLayer(t, kind, name, load) <==> l.kind == kind && l.name == name && load == Loaded(content)
  {
  }

  lemma NoSkillHolds(t: Tools, s: Sources, l: Layer)
    requires l.kind != "skill"
    ensures forall file :: file in s.workspace.skills ==>
              l !in SkillLayer(t, s.workspace, SelectionSet(RoutingOf(s)), file)
  {
  }

  /** What is in an assembly, by kind, name and content. */
  lemma HoldsFixedLayers(t: Tools, s: Sources, kind: string, name: string, content: Bytes)
    requires kind in {"house_rules", "project_instructions", "env_overlay"}
    ensures LayerOf(t, kind, name, content) in LayersOf(t, s) <==>
              || (kind == "house_rules" && name == "house-rules" && s.house == WellKept(Loaded(content)))
              || (kind == "project_instructions" && name == "instructions" &&
                  s.workspace.instructions == Loaded(content))
              || (kind == "env_overlay" && name == "env/" + s.env && s.env != "" &&
                  s.workspace.overlay == Loaded(content))
  {
    var l := LayerOf(t, kind, name, content);
    KindsDiffer();
    LayersExactly(t, s, l);
    NoSkillHolds(t, s, l);
    if s.house.WellKept? {
      OneLayerHolds(t, HOUSE_RULES, "house-rules", s.house.read, l, content);
    }
    OneLayerHolds(t, PROJECT_INSTRUCTIONS, "instructions", s.workspace.instructions, l, content);
    OneLayerHolds(t, ENV_OVERLAY, "env/" + s.env, EnvLoad(s), l, content);
  }

  lemma HoldsSkill(t: Tools, s: Sources, tool: string, content: Bytes)
    ensures LayerOf(t, "skill", "skills/" + tool, content) in LayersOf(t, s) <==>
              && tool + ".md" in s.workspace.skills && s.workspace.skills[tool + ".md"] == Loaded(content)
              && AskedFor(s, tool)
  {
    var l, selection := LayerOf(t, "skill", "skills/" + tool, content), SelectionSet(RoutingOf(s));
    OnlySkillsHold(t, s, l);
    if tool + ".md" in s.workspace.skills && s.workspace.skills[tool + ".md"] == Loaded(content) && AskedFor(s, tool) {
      SkillLayerOf(t, s, tool, content);
      assert l in SkillLayer(t, s.workspace, selection, tool + ".md");
    }
    if l in LayersOf(t, s) {
      var file :| file in s.workspace.skills && l in SkillLayer(t, s.workspace, selection, file);
      SkillFileIs(t, s, file, tool, content);
    }
  }

  lemma SkillFileIs(t: Tools, s: Sources, file: string, tool: string, content: Bytes)
    requires file in s.workspace.skills
    requires LayerOf(t, "skill", "skills/" + tool, content) in
               SkillLayer(t, s.workspace, SelectionSet(RoutingOf(s)), file)
    ensures file == tool + ".md" && s.workspace.skills[file] == Loaded(content) && AskedFor(s, tool)
  {
    var l := LayerOf(t, "skill", "skills/" + tool, content);
    OneLayerHolds(t, SKILL, "skills/" + PackName(file), s.workspace.skills[file], l, content);
    SamePrefix("skills/", tool, PackName(file));
    PackFileIs(file);
    PickedExactly(s, tool);
  }

  lemma OnlySkillsHold(t: Tools, s: Sources, l: Layer)
    requires l.kind == "skill"
    ensures l in LayersOf(t, s) <==>
              exists file :: file in s.workspace.skills &&
                             l in SkillLayer(t, s.workspace, SelectionSet(RoutingOf(s)), file)
  {
    KindsDiffer();
    LayersExactly(t, s, l);
  }

  lemma HoldsContract(t: Tools, s: Sources, tool: string, content: Bytes)
    ensures LayerOf(t, "tool_contract", "tools/" + tool, content) in LayersOf(t, s) <==>
              content != [] && ToolContract(tool, content) in s.contracts
  {
    var l := LayerOf(t, "tool_contract", "tools/" + tool, content);
    OnlyContractsHold(t, s, l);
    if l in LayersOf(t, s) {
      var c :| c in s.contracts && c.body != [] && l == ContractLayer(t, c);
      ContractIs(t, c, tool, content);
    }
    if content != [] && ToolContract(tool, content) in s.contracts {
      assert l == ContractLayer(t, ToolContract(tool, content));
    }
  }

  lemma ContractIs(t: Tools, c: ToolContract, tool: string, content: Bytes)
    requires LayerOf(t, "tool_contract", "tools/" + tool, content) == ContractLayer(t, c)
    ensures c == ToolContract(tool, content)
  {
    SamePrefix("tools/", tool, c.tool);
  }

  lemma OnlyContractsHold(t: Tools, s: Sources, l: Layer)
    requires l.kind == "tool_contract"
    ensures l in LayersOf(t, s) <==> exists c :: c in s.contracts && c.body != [] && l == ContractLayer(t, c)
  {
    KindsDiffer();
    LayersExactly(t, s, l);
    NoSkillHolds(t, s, l);
  }

  lemma SkillsInOrder(t: Tools, w: Workspace, selection: Option<set<string>>, a: seq<string>, b: seq<string>)
    ensures SkillLayers(t, w, selection, a + b) == SkillLayers(t, w, selection, a) + SkillLayers(t, w, selection, b)
  {
    var one := (file: string) => SkillLayer(t, w, selection, file);
    var all := (files: seq<string>) => SkillLayers(t, w, selection, files);
    EachInTurn(one, all, a, b);
  }

  lemma OneSkill(t: Tools, w: Workspace, selection: Option<set<string>>, file: string)
    ensures SkillLayers(t, w, selection, [file]) == SkillLayer(t, w, selection, file)
  {
    assert [file][..0] == [];
  }

  lemma TwoSkills(t: Tools, s: Sources, p: string, q: string, a: Layer, b: Layer)
    returns (before: seq<Layer>, between: seq<Layer>, after: seq<Layer>)
    requires p in s.workspace.skills && q in s.workspace.skills && p != q && LexLe(p, q)
    requires SkillLayer(t, s.workspace, SelectionSet(RoutingOf(s)), p) == [a]
    requires SkillLayer(t, s.workspace, SelectionSet(RoutingOf(s)), q) == [b]
    ensures SkillLayers(t, s.workspace, SelectionSet(RoutingOf(s)), SortedSet(s.workspace.skills.Keys)) ==
              before + [a] + between + [b] + after
  {
    var w, selection := s.workspace, SelectionSet(RoutingOf(s));
    var x, y, z := Between(SortedSet(w.skills.Keys), p, q);
    ThreeSkillLists(t, w, selection, x, p, y, q, z);
    before, between, after :=
      SkillLayers(t, w, selection, x), SkillLayers(t, w, selection, y), SkillLayers(t, w, selection, z);
  }

  /** Of two packs that are used, the one whose file name comes first stands first. */
  lemma SkillsByFileName(t: Tools, s: Sources, p: string, q: string, a: Bytes, b: Bytes) returns (i: nat, j: nat)
    requires p + ".md" in s.workspace.skills && s.workspace.skills[p + ".md"] == Loaded(a) && AskedFor(s, p)
    requires q + ".md" in s.workspace.skills && s.workspace.skills[q + ".md"] == Loaded(b) && AskedFor(s, q)
    requires p != q && LexLe(p + ".md", q + ".md")
    ensures i < j < |LayersOf(t, s)|
    ensures LayersOf(t, s)[i] == LayerOf(t, "skill", "skills/" + p, a)
    ensures LayersOf(t, s)[j] == LayerOf(t, "skill", "skills/" + q, b)
  {
    var first, second := LayerOf(t, "skill", "skills/" + p, a), LayerOf(t, "skill", "skills/" + q, b);
    SkillLayerOf(t, s, p, a);
    SkillLayerOf(t, s, q, b);
    NamesDiffer(p, q);
    var before, between, after := TwoSkills(t, s, p + ".md", q + ".md", first, second);
    var front, skills := FrontAndSkills(t, s);
    i := |front| + |before|;
    j := i + 1 + |between|;
    Placed(front, before, first, between, second, after, ContractLayers(t, s.contracts), skills, LayersOf(t, s));
  }

  lemma NamesDiffer(p: string, q: string)
    requires p != q
    ensures p + ".md" != q + ".md"
  {
    PackNameOf(p);
    PackNameOf(q);
  }

  lemma FrontAndSkills(t: Tools, s: Sources) returns (front: seq<Layer>, skills: seq<Layer>)
    ensures skills == SkillLayers(t, s.workspace, SelectionSet(RoutingOf(s)), SortedSet(s.workspace.skills.Keys))
    ensures LayersOf(t, s) == front + skills + ContractLayers(t, s.contracts)
  {
    front := DaemonLayers(t, s.house)
             + OneLayer(t, PROJECT_INSTRUCTIONS, "instructions", s.workspace.instructions)
             + OneLayer(t, ENV_OVERLAY, "env/" + s.env, EnvLoad(s));
    skills := SkillLayers(t, s.workspace, SelectionSet(RoutingOf(s)), SortedSet(s.workspace.skills.Keys));
  }

  lemma SkillLayerOf(t: Tools, s: Sources, tool: string, content: Bytes)
    requires tool + ".md" in s.workspace.skills && s.workspace.skills[tool + ".md"] == Loaded(content)
    requires AskedFor(s, tool)
    ensures SkillLayer(t, s.workspace, SelectionSet(RoutingOf(s)), tool + ".md") ==
              [LayerOf(t, "skill", "skills/" + tool, content)]
  {
    PackNameOf(tool);
    PickedExactly(s, tool);
  }

  lemma ThreeSkillLists(t: Tools, w: Workspace, selection: Option<set<string>>, x: seq<string>, f: string,
                        y: seq<string>, g: string, z: seq<string>)
    ensures SkillLayers(t, w, selection, x + [f] + y + [g] + z) ==
              SkillLayers(t, w, selection, x) + SkillLayer(t, w, selection, f) + SkillLayers(t, w, selection, y)
              + SkillLayer(t, w, selection, g) + SkillLayers(t, w, selection, z)
  {
    SkillsInOrder(t, w, selection, x + [f] + y + [g], z);
    SkillsInOrder(t, w, selection, x + [f] + y, [g]);
    SkillsInOrder(t, w, selection, x + [f], y);
    SkillsInOrder(t, w, selection, x, [f]);
    OneSkill(t, w, selection, f);
    OneSkill(t, w, selection, g);
  }

  lemma Placed<T>(front: seq<T>, before: seq<T>, a: T, between: seq<T>, b: T, after: seq<T>, rest: seq<T>,
                  skills: seq<T>, all: seq<T>)
    requires skills == before + [a] + between + [b] + after && all == front + skills + rest
    ensures |all| > |front| + |before| + 1 + |between|
    ensures all[|front| + |before|] == a && all[|front| + |before| + 1 + |between|] == b
  {
  }

  lemma Between(files: seq<string>, p: string, q: string) returns (x: seq<string>, y: seq<string>, z: seq<string>)
    requires SortedBy(files, LexLe) && Distinct(files) && p in Elements(files) && q in Elements(files)
    requires p != q && LexLe(p, q)
    ensures files == x + [p] + y + [q] + z
  {
    var m :| 0 <= m < |files| && files[m] == p;
    var n :| 0 <= n < |files| && files[n] == q;
    if n < m {
      LexAntisymmetric(p, q);
    }
    x, y, z := files[..m], files[m+1..n], files[n+1..];
  }

  /** Contracts keep the order they were given in. */
  lemma ContractsInOrder(t: Tools, a: seq<ToolContract>, b: seq<ToolContract>)
    ensures ContractLayers(t, a + b) == ContractLayers(t, a) + ContractLayers(t, b)
  {
    var one := (c: ToolContract) => if c.body == [] then [] else [ContractLayer(t, c)];
    var all := (contracts: seq<ToolContract>) => ContractLayers(t, contracts);
    EachInTurn(one, all, a, b);
  }

  lemma {:induction false} TotalsAdd(a: seq<Layer>, b: seq<Layer>)
    ensures TotalBytes(a + b) == TotalBytes(a) + TotalBytes(b)
    ensures TotalTokens(a + b) == TotalTokens(a) + TotalTokens(b)
    ensures |a| == 1 ==> TotalBytes(a) == a[0].bytes && TotalTokens(a) == a[0].tokens
    decreases |b|
  {
    assert |a| == 1 ==> a[..0] == [];
    if b == [] {
      assert a + b == a;
    } else {
      assert (a + b)[..|a + b|-1] == a + b[..|b|-1];
      TotalsAdd(a, b[..|b|-1]);
    }
  }

  /** The warnings: one for a budget overrun, first, and one for each tool asked for that has no
      pack on disk. A budget that is not positive means 24000. */
  lemma WarnsExactly(t: Tools, s: Sources, a: Assembly, tool: string)
    requires AssembledFrom(t, s, a)
    ensures a.budget == (if s.budget > 0 then s.budget else 24000) && a.bytes <= 4194304
    ensures a.overrun <==> a.tokens > a.budget
    ensures a.overrun <==> a.warnings != [] && a.warnings[0] == OverBudget(a.tokens, a.budget)
    ensures forall i :: 0 <= i < |a.warnings| && a.warnings[i].OverBudget? ==> i == 0
    ensures NoPack(tool) in a.warnings <==>
              && tool != "" && tool + ".md" !in s.workspace.skills
              && exists role :: role in s.capabilities && s.capabilities[role] == tool
                                && (s.roles == [] || (role != "" && role in s.roles))
  {
    var available, over := SortedSet(Available(s.workspace)), if a.overrun then 1 else 0;
    OnDisk(s.workspace, tool);
    if s.roles == [] {
      RoutesEverything(s.capabilities, available, tool);
    } else {
      RoutesExactly(s.capabilities, s.roles, available, tool);
    }
    WarnsOfMissing(a.warnings[..over], a.routing.missing, tool);
    assert a.warnings == a.warnings[..over] + PackWarnings(a.routing.missing);
  }

  lemma WarnsOfMissing(front: seq<Warning>, missing: seq<string>, tool: string)
    requires forall w :: w in front ==> w.OverBudget?
    ensures NoPack(tool) in front + PackWarnings(missing) <==> tool in missing
  {
    var all := front + PackWarnings(missing);
    if tool in missing {
      var i :| 0 <= i < |missing| && missing[i] == tool;
      assert all[|front| + i] == NoPack(tool);
    }
  }
}
