/** Manifest validation: known kinds, good names, no duplicates, good Skill specs, and no dangling references. */
module Validation {
  import opened Values
  import opened Kinds
  import opened Manifests
  import opened SkillSpecs

  datatype Manifest = Manifest(apiVersion: string, kind: string, resources: seq<Resource>)

  datatype Problem =
    | BadVersion | BadManifestKind
    | UnknownKind(at: nat) | NameRequired(at: nat) | BadName(at: nat) | Duplicate(at: nat) | SpecRequired(at: nat)
    | SkillSpec(at: nat, problem: SkillProblem)
    | NotDeclared(at: nat, ref: Key) | BadLinkName(at: nat) | LinkMismatch(at: nat, field: string)

  predicate LowerAlnum(c: char) {
    'a' <= c <= 'z' || '0' <= c <= '9'
  }

  /** Kebab-case: lower-case letters, digits and inner hyphens. */
  predicate KeyName(s: string) {
    s != "" && LowerAlnum(s[0]) && LowerAlnum(s[|s| - 1]) && forall i | 0 <= i < |s| :: LowerAlnum(s[i]) || s[i] == '-'
  }

  predicate SysConfigName(s: string) {
    1 <= |s| <= 100 && forall i | 0 <= i < |s| ::
      LowerAlnum(s[i]) || 'A' <= s[i] <= 'Z' || s[i] == '.' || s[i] == '_' || s[i] == '-'
  }

  predicate GoodName(kind: Kind, name: string) {
    if kind == SystemConfig then SysConfigName(name) else KeyName(name)
  }

  /** The kind as it is written in a manifest. */
  function KindText(kind: Kind): string {
    match kind
    case Tenant => "Tenant"
    case Provider => "Provider"
    case Agent => "Agent"
    case Skill => "Skill"
    case BuiltinToolConfig => "BuiltinToolConfig"
    case SkillConfig => "SkillConfig"
    case SystemConfig => "SystemConfig"
    case MCPServer => "MCPServer"
    case MCPCredentials => "MCPCredentials"
    case Channel => "Channel"
    case CronJob => "CronJob"
    case SecureCLI => "SecureCLI"
    case SecureCLIGrant => "SecureCLIGrant"
    case AgentTeam => "AgentTeam"
    case AgentLink => "AgentLink"
    case Workstation => "Workstation"
    case Unknown(text) => text
  }

  /** The string by which duplicates are found. */
  function Uid(r: Resource): string {
    KindText(r.kind) + "/" + r.name
  }

  function Uids(rs: seq<Resource>): set<string> {
    set r | r in rs :: Uid(r)
  }

  lemma KindTextPlain(kind: Kind)
    requires !kind.Unknown?
    ensures '/' !in KindText(kind)
  {
  }

  lemma SlashSplits(a: string, x: string, b: string, y: string)
    requires '/' !in a && '/' !in b && a + "/" + x == b + "/" + y
    ensures a == b && x == y
  {
    var s := a + "/" + x;
    assert s[|a|] == '/' && s[|b|] == '/';
    assert s[..|a|] == a && s[..|b|] == b && s[|a| + 1..] == x && s[|b| + 1..] == y;
  }

  /** Reads the kind back from its text: length and outer letters tell the known kinds apart. */
  function KindOf(text: string): Kind
    requires text != ""
  {
    var first, last := text[0], text[|text| - 1];
    match |text|
    case 5 => if first == 'A' then Agent else Skill
    case 6 => Tenant
    case 7 => if last == 'l' then Channel else CronJob
    case 8 => Provider
    case 9 => if first == 'M' then MCPServer else if first == 'S' then SecureCLI
              else if last == 'm' then AgentTeam else AgentLink
    case 11 => if first == 'W' then Workstation else SkillConfig
    case 12 => SystemConfig
    case 14 => if first == 'M' then MCPCredentials else SecureCLIGrant
    case _ => BuiltinToolConfig
  }

  lemma KindOfText(kind: Kind)
    requires !kind.Unknown?
    ensures KindText(kind) != "" && KindOf(KindText(kind)) == kind
  {
  }

  /** For resources of known kinds the string tells identities apart. */
  lemma UidIsIdentity(a: Resource, b: Resource)
    requires !a.kind.Unknown? && !b.kind.Unknown?
    ensures Uid(a) == Uid(b) <==> a.Id() == b.Id()
  {
    if Uid(a) == Uid(b) {
      KindTextPlain(a.kind);
      KindTextPlain(b.kind);
      SlashSplits(KindText(a.kind), a.name, KindText(b.kind), b.name);
      KindOfText(a.kind);
      KindOfText(b.kind);
    }
  }

  /** Where the first "--" starts; |s| when there is none. */
  function FirstDashes(s: string): (i: nat)
    ensures i <= |s|
    ensures i < |s| ==> i + 1 < |s| && s[i] == '-' && s[i + 1] == '-'
    ensures forall j | 0 <= j < i && j + 1 < |s| :: !(s[j] == '-' && s[j + 1] == '-')
  {
    if |s| < 2 then |s|
    else if s[0] == '-' && s[1] == '-' then 0
    else
      var i := FirstDashes(s[1..]);
      assert forall j | 1 <= j < |s| :: s[j] == s[1..][j - 1];
      i + 1
  }

  /** The parts of a name between occurrences of "--", taken from the left. */
  function SplitDashes(s: string): (parts: seq<string>)
    ensures |parts| >= 1
  {
    var i := FirstDashes(s);
    if i == |s| then [s] else [s[..i]] + SplitDashes(s[i + 2..])
  }

  /** The two ends of a composite AgentLink name. */
  function SplitLink(name: string): Option<(string, string)> {
    var parts := SplitDashes(name);
    if |parts| != 2 || parts[0] == "" || parts[1] == "" then None else Some((parts[0], parts[1]))
  }

  predicate NoDashes(s: string) {
    FirstDashes(s) == |s|
  }

  /** A name splits into two ends only if it is their composition. */
  lemma SplitLinkComposes(name: string)
    requires SplitLink(name).Some?
    ensures var (src, tgt) := SplitLink(name).value;
            name == src + "--" + tgt && NoDashes(src) && NoDashes(tgt) && src != "" && tgt != ""
  {
    var i := FirstDashes(name);
    var src, rest := name[..i], name[i + 2..];
    assert name == src + "--" + rest;
    assert SplitDashes(rest) == [SplitLink(name).value.1];
    assert FirstDashes(rest) == |rest|;
    assert forall j | 0 <= j < |src| :: src[j] == name[j];
  }

  /** Composing two agent names without "--" and splitting again gives them back. */
  lemma SplitLinkRoundTrip(src: string, tgt: string)
    requires KeyName(src) && KeyName(tgt) && NoDashes(src) && NoDashes(tgt)
    ensures SplitLink(src + "--" + tgt) == Some((src, tgt))
  {
    var name := src + "--" + tgt;
    var i := FirstDashes(name);
    assert name[|src|] == '-' && name[|src| + 1] == '-';
    assert forall j | 0 <= j < |src| :: src[j] == name[j];
    assert i == |src|;
    assert name[..i] == src && name[i + 2..] == tgt;
    assert SplitDashes(tgt) == [tgt];
  }

  /** A string field; empty when absent or not a string. */
  function StrField(s: Spec, key: string): string {
    if key in s && s[key].Str? then s[key].s else ""
  }

  /** The strings of a `[]any` field. */
  function StrItems(s: Spec, key: string): set<string> {
    if key in s && s[key].List? && !s[key].typed then
      set i | 0 <= i < |s[key].xs| && s[key].xs[i].Str? :: s[key].xs[i].s
    else {}
  }

  function OptionalRef(kind: Kind, name: string): set<Key> {
    if name == "" then {} else {Key(kind, name)}
  }

  function AgentKeys(names: set<string>): set<Key> {
    set a | a in names :: Key(Agent, a)
  }

  function GrantedAgents(s: Spec): set<string> {
    if "grants" in s && s["grants"].Map? && !s["grants"].anyKeys then StrItems(s["grants"].m, "agents") else {}
  }

  /** The resources a resource refers to. */
  function Refs(r: Resource): set<Key> {
    var s := r.Fields();
    match r.kind
    case Agent => OptionalRef(Provider, StrField(s, "provider"))
    case Channel => OptionalRef(Agent, StrField(s, "agentKey"))
    case CronJob => OptionalRef(Agent, StrField(s, "agentKey"))
    case MCPServer => AgentKeys(GrantedAgents(s))
    case SecureCLIGrant =>
      OptionalRef(Agent, StrField(s, "agentKey")) + OptionalRef(SecureCLI, StrField(s, "binaryName"))
    case AgentTeam => OptionalRef(Agent, StrField(s, "lead")) + AgentKeys(StrItems(s, "members"))
    case AgentLink =>
      var ends := SplitLink(r.name);
      if ends.None? then {} else {Key(Agent, ends.value.0), Key(Agent, ends.value.1)}
    case _ => {}
  }

  /** A link's name is composite, and its spec does not contradict it. */
  predicate LinkOk(r: Resource) {
    r.kind.AgentLink? ==>
      var ends := SplitLink(r.name);
      && ends.Some?
      && (StrField(r.Fields(), "sourceAgent") == "" || StrField(r.Fields(), "sourceAgent") == ends.value.0)
      && (StrField(r.Fields(), "targetAgent") == "" || StrField(r.Fields(), "targetAgent") == ends.value.1)
  }

  /** Every reference is declared, every link consistent. */
  predicate Referenced(rs: seq<Resource>) {
    forall i | 0 <= i < |rs| :: LinkOk(rs[i]) && Refs(rs[i]) <= Declared(rs)
  }

  /** Of a known kind, well named and with a spec, a good one if it is a Skill's. */
  ghost predicate Shaped(lib: Library, r: Resource) {
    && !r.kind.Unknown? && GoodName(r.kind, r.name) && r.spec.Some?
    && (r.kind.Skill? ==> SkillOk(lib, r.Fields()))
  }

  /** What validation accepts. */
  ghost predicate Valid(lib: Library, m: Manifest) {
    && m.apiVersion == "gcplane.io/v1" && m.kind == "Manifest"
    && (forall r | r in m.resources :: Shaped(lib, r))
    && Distinct(m.resources)
    && Referenced(m.resources)
  }

  // What is reported, problem by problem.

  /** A reference of the resource at `at` that is not declared. */
  predicate Dangling(e: Problem, at: nat, refs: set<Key>, declared: set<Key>) {
    e.NotDeclared? && e.at == at && e.ref in refs && e.ref !in declared
  }

  predicate BadLink(e: Problem, at: nat, r: Resource) {
    r.kind.AgentLink? && if SplitLink(r.name).None? then e == BadLinkName(at) else
      var (src, tgt) := SplitLink(r.name).value;
      var specSrc, specTgt := StrField(r.Fields(), "sourceAgent"), StrField(r.Fields(), "targetAgent");
      || (specSrc != "" && specSrc != src && e == LinkMismatch(at, "sourceAgent"))
      || (specTgt != "" && specTgt != tgt && e == LinkMismatch(at, "targetAgent"))
  }

  predicate BadReference(e: Problem, at: nat, r: Resource, declared: set<Key>) {
    Dangling(e, at, Refs(r), declared) || BadLink(e, at, r)
  }

  predicate BadReferenceIn(e: Problem, rs: seq<Resource>) {
    && (e.NotDeclared? || e.BadLinkName? || e.LinkMismatch?)
    && e.at < |rs| && BadReference(e, e.at, rs[e.at], Declared(rs))
  }

  predicate BadSkill(e: Problem, lib: Library, at: nat, r: Resource) {
    e.SkillSpec? && e.at == at && r.kind.Skill? && SkillProblemOf(e.problem, lib, r.Fields())
  }

  predicate BadResource(e: Problem, lib: Library, rs: seq<Resource>, at: nat)
    requires at < |rs|
  {
    var r := rs[at];
    || (r.kind.Unknown? && e == UnknownKind(at))
    || (r.name == "" && e == NameRequired(at))
    || (r.name != "" && !GoodName(r.kind, r.name) && e == BadName(at))
    || (Uid(r) in Uids(rs[..at]) && e == Duplicate(at))
    || (r.spec.None? && e == SpecRequired(at))
    || BadSkill(e, lib, at, r)
  }

  predicate BadResourceIn(e: Problem, lib: Library, rs: seq<Resource>) {
    && (e.UnknownKind? || e.NameRequired? || e.BadName? || e.Duplicate? || e.SpecRequired? || e.SkillSpec?)
    && e.at < |rs| && BadResource(e, lib, rs, e.at)
  }

  predicate ProblemOf(e: Problem, lib: Library, m: Manifest) {
    || (e.BadVersion? && m.apiVersion != "gcplane.io/v1")
    || (e.BadManifestKind? && m.kind != "Manifest")
    || BadResourceIn(e, lib, m.resources) || BadReferenceIn(e, m.resources)
  }

  method CheckRef(at: nat, kind: Kind, name: string, declared: set<Key>) returns (errs: seq<Problem>)
    ensures forall e :: e in errs <==> Dangling(e, at, OptionalRef(kind, name), declared)
  {
    errs := [];
    if name != "" && Key(kind, name) !in declared {
      errs := [NotDeclared(at, Key(kind, name))];
    }
  }

  method CheckAgents(at: nat, s: Spec, key: string, declared: set<Key>) returns (errs: seq<Problem>)
    ensures forall e :: e in errs <==> Dangling(e, at, AgentKeys(StrItems(s, key)), declared)
  {
    errs := [];
    if key !in s || !s[key].List? || s[key].typed {
      return;
    }
    var xs := s[key].xs;
    for i := 0 to |xs|
      invariant forall e :: e in errs <==>
                  && e.NotDeclared? && e.at == at && e.ref !in declared
                  && exists j :: 0 <= j < i && xs[j].Str? && e.ref == Key(Agent, xs[j].s)
    {
      if xs[i].Str? && Key(Agent, xs[i].s) !in declared {
        errs := errs + [NotDeclared(at, Key(Agent, xs[i].s))];
      }
    }
    forall j | 0 <= j < |xs| && xs[j].Str?
      ensures xs[j].s in StrItems(s, key) && Key(Agent, xs[j].s) in AgentKeys(StrItems(s, key))
    {
      assert xs[j].s in StrItems(s, key);
    }
  }

  method CheckLink(at: nat, r: Resource, declared: set<Key>) returns (errs: seq<Problem>)
    requires r.kind.AgentLink?
    ensures forall e :: e in errs <==> BadReference(e, at, r, declared)
  {
    errs := [];
    var ends := SplitLink(r.name);
    if ends.None? {
      return [BadLinkName(at)];
    }
    var (src, tgt) := ends.value;
    var specSrc, specTgt := StrField(r.Fields(), "sourceAgent"), StrField(r.Fields(), "targetAgent");
    if specSrc != "" && specSrc != src {
      errs := errs + [LinkMismatch(at, "sourceAgent")];
    }
    if specTgt != "" && specTgt != tgt {
      errs := errs + [LinkMismatch(at, "targetAgent")];
    }
    if Key(Agent, src) !in declared {
      errs := errs + [NotDeclared(at, Key(Agent, src))];
    }
    if Key(Agent, tgt) !in declared {
      errs := errs + [NotDeclared(at, Key(Agent, tgt))];
    }
  }

  method CheckResource(at: nat, r: Resource, declared: set<Key>) returns (errs: seq<Problem>)
    ensures forall e :: e in errs <==> BadReference(e, at, r, declared)
  {
    errs := [];
    var s := r.Fields();
    match r.kind
    case Agent =>
      errs := CheckRef(at, Provider, StrField(s, "provider"), declared);
    case Channel =>
      errs := CheckRef(at, Agent, StrField(s, "agentKey"), declared);
    case CronJob =>
      errs := CheckRef(at, Agent, StrField(s, "agentKey"), declared);
    case MCPServer =>
      if "grants" in s && s["grants"].Map? && !s["grants"].anyKeys {
        errs := CheckAgents(at, s["grants"].m, "agents", declared);
      }
    case SecureCLIGrant =>
      var agents := CheckRef(at, Agent, StrField(s, "agentKey"), declared);
      var binaries := CheckRef(at, SecureCLI, StrField(s, "binaryName"), declared);
      errs := agents + binaries;
    case AgentTeam =>
      var lead := CheckRef(at, Agent, StrField(s, "lead"), declared);
      var members := CheckAgents(at, s, "members", declared);
      errs := lead + members;
    case AgentLink =>
      errs := CheckLink(at, r, declared);
    case _ =>
  }

  /** Every broken reference is reported, and nothing else. */
  method ValidateReferences(rs: seq<Resource>) returns (errs: seq<Problem>)
    ensures forall e :: e in errs <==> BadReferenceIn(e, rs)
  {
    var index := {};
    for i := 0 to |rs|
      invariant index == Declared(rs[..i])
    {
      index := index + {rs[i].Id()};
    }
    assert rs[..|rs|] == rs;
    errs := [];
    for i := 0 to |rs|
      invariant forall e :: e in errs <==> BadReferenceIn(e, rs) && e.at < i
    {
      var found := CheckResource(i, rs[i], index);
      errs := errs + found;
    }
  }

  /** Every problem is reported, and nothing else; so nothing is reported exactly for the valid manifests. */
  method Validate(lib: Library, m: Manifest) returns (errs: seq<Problem>)
    ensures forall e :: e in errs <==> ProblemOf(e, lib, m)
    ensures errs == [] <==> Valid(lib, m)
  {
    errs := [];
    if m.apiVersion != "gcplane.io/v1" {
      errs := errs + [BadVersion];
    }
    if m.kind != "Manifest" {
      errs := errs + [BadManifestKind];
    }
    var perResource := ValidateResources(lib, m.resources);
    var refs := ValidateReferences(m.resources);
    errs := errs + perResource + refs;
    NoProblemIffValid(lib, m);
    assert errs == [] <==> forall e :: e !in errs by {
      assert errs != [] ==> errs[0] in errs;
    }
  }

  method ValidateResources(lib: Library, rs: seq<Resource>) returns (errs: seq<Problem>)
    ensures forall e :: e in errs <==> BadResourceIn(e, lib, rs)
  {
    errs := [];
    var seen: set<string> := {};
    for i := 0 to |rs|
      invariant seen == Uids(rs[..i])
      invariant forall e :: e in errs <==> BadResourceIn(e, lib, rs) && e.at < i
    {
      var found := CheckShape(lib, i, rs, seen);
      assert rs[..i + 1] == rs[..i] + [rs[i]];
      seen := seen + {Uid(rs[i])};
      errs := errs + found;
    }
  }

  method CheckShape(lib: Library, at: nat, rs: seq<Resource>, seen: set<string>) returns (found: seq<Problem>)
    requires at < |rs| && seen == Uids(rs[..at])
    ensures forall e :: e in found <==> BadResource(e, lib, rs, at)
  {
    var r := rs[at];
    found := [];
    if r.kind.Unknown? {
      found := found + [UnknownKind(at)];
    }
    if r.name == "" {
      found := found + [NameRequired(at)];
    } else if !GoodName(r.kind, r.name) {
      found := found + [BadName(at)];
    }
    if Uid(r) in seen {
      found := found + [Duplicate(at)];
    }
    if r.spec.None? {
      found := found + [SpecRequired(at)];
    }
    if r.kind.Skill? {
      var skill := CheckSkill(lib, at, r);
      found := found + skill;
    }
  }

  method CheckSkill(lib: Library, at: nat, r: Resource) returns (found: seq<Problem>)
    requires r.kind.Skill?
    ensures forall e :: e in found <==> BadSkill(e, lib, at, r)
  {
    var problems := ValidateSkillSpec(lib, r.Fields());
    found := [];
    for i := 0 to |problems|
      invariant forall e :: e in found <==> e.SkillSpec? && e.at == at && e.problem in problems[..i]
    {
      assert problems[..i + 1] == problems[..i] + [problems[i]];
      found := found + [SkillSpec(at, problems[i])];
    }
    assert problems[..|problems|] == problems;
  }

  lemma DistinctIff(rs: seq<Resource>)
    requires KnownKinds(rs)
    ensures Distinct(rs) <==> forall i | 0 <= i < |rs| :: Uid(rs[i]) !in Uids(rs[..i])
  {
    forall i, j | 0 <= i < j < |rs|
      ensures Uid(rs[i]) == Uid(rs[j]) <==> rs[i].Id() == rs[j].Id()
    {
      UidIsIdentity(rs[i], rs[j]);
    }
    if i, j :| 0 <= i < j < |rs| && Uid(rs[i]) == Uid(rs[j]) {
      assert rs[..j][i] == rs[i];
      assert Uid(rs[j]) in Uids(rs[..j]);
    }
    if j :| 0 <= j < |rs| && Uid(rs[j]) in Uids(rs[..j]) {
      var r :| r in rs[..j] && Uid(r) == Uid(rs[j]);
      var i :| 0 <= i < j && rs[i] == r;
      assert rs[i].Id() == rs[j].Id();
    }
  }

  lemma NoProblemIffValid(lib: Library, m: Manifest)
    ensures (forall e :: !ProblemOf(e, lib, m)) <==> Valid(lib, m)
  {
    var rs := m.resources;
    ShapeIff(lib, rs);
    ReferencedIff(rs);
    if forall e :: !ProblemOf(e, lib, m) {
      assert !ProblemOf(BadVersion, lib, m) && !ProblemOf(BadManifestKind, lib, m);
      assert forall e :: BadResourceIn(e, lib, rs) ==> ProblemOf(e, lib, m);
      assert forall e :: BadReferenceIn(e, rs) ==> ProblemOf(e, lib, m);
    }
  }

  lemma ShapedIff(lib: Library, rs: seq<Resource>, at: nat)
    requires at < |rs|
    ensures (forall e :: !BadResource(e, lib, rs, at)) <==> Shaped(lib, rs[at]) && Uid(rs[at]) !in Uids(rs[..at])
  {
    var r := rs[at];
    if forall e :: !BadResource(e, lib, rs, at) {
      assert !BadResource(UnknownKind(at), lib, rs, at);
      assert !BadResource(NameRequired(at), lib, rs, at) && !BadResource(BadName(at), lib, rs, at);
      assert !BadResource(Duplicate(at), lib, rs, at) && !BadResource(SpecRequired(at), lib, rs, at);
      if r.kind.Skill? {
        forall e
          ensures !SkillProblemOf(e, lib, r.Fields())
        {
          assert !BadResource(SkillSpec(at, e), lib, rs, at);
        }
      }
    }
    NoSkillProblemIff(lib, r.Fields());
  }

  lemma ShapeIff(lib: Library, rs: seq<Resource>)
    ensures (forall e :: !BadResourceIn(e, lib, rs)) <==> Distinct(rs) && forall r | r in rs :: Shaped(lib, r)
  {
    forall i | 0 <= i < |rs|
      ensures (forall e :: !BadResource(e, lib, rs, i)) <==> Shaped(lib, rs[i]) && Uid(rs[i]) !in Uids(rs[..i])
    {
      ShapedIff(lib, rs, i);
    }
    if KnownKinds(rs) {
      DistinctIff(rs);
    }
    if forall e :: !BadResourceIn(e, lib, rs) {
      forall i, e | 0 <= i < |rs|
        ensures !BadResource(e, lib, rs, i)
      {
        assert !BadResourceIn(e, lib, rs);
      }
    }
  }

  lemma ReferencedIff(rs: seq<Resource>)
    ensures (forall e :: !BadReferenceIn(e, rs)) <==> Referenced(rs)
  {
    if forall e :: !BadReferenceIn(e, rs) {
      forall i | 0 <= i < |rs|
        ensures LinkOk(rs[i]) && Refs(rs[i]) <= Declared(rs)
      {
        forall ref | ref in Refs(rs[i])
          ensures ref in Declared(rs)
        {
          assert !BadReferenceIn(NotDeclared(i, ref), rs);
        }
        assert !BadReferenceIn(BadLinkName(i), rs);
        assert !BadReferenceIn(LinkMismatch(i, "sourceAgent"), rs);
        assert !BadReferenceIn(LinkMismatch(i, "targetAgent"), rs);
      }
    }
  }
}
