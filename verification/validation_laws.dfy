/** What validation means, said by the fields of the specs and the letters of the names themselves. */
module ValidationLaws {
  import opened Values
  import opened Kinds
  import opened Manifests
  import opened ReconcileSpec
  import opened SkillSpecs
  import opened Validation
  import opened DependencySafety

  // Names.

  /** `[a-z0-9]` */
  predicate Alnum(c: char) {
    'a' <= c <= 'z' || '0' <= c <= '9'
  }

  /** `[a-z0-9]([a-z0-9-]*[a-z0-9])?` with the optional part as `mid` and `last`. */
  predicate KeyForm(s: string, first: char, mid: string, last: string) {
    && s == [first] + mid + last && Alnum(first)
    && (forall c | c in mid :: Alnum(c) || c == '-')
    && (if last == "" then mid == "" else |last| == 1 && Alnum(last[0]))
  }

  lemma KeyNameIff(s: string)
    ensures KeyName(s) <==> exists first, mid, last :: KeyForm(s, first, mid, last)
  {
    if KeyName(s) {
      if |s| == 1 {
        assert KeyForm(s, s[0], "", "");
      } else {
        var mid, last := s[1..|s| - 1], s[|s| - 1..];
        assert s == [s[0]] + mid + last;
        assert KeyForm(s, s[0], mid, last);
      }
    }
    if first, mid, last :| KeyForm(s, first, mid, last) {
      forall i | 0 <= i < |s|
        ensures LowerAlnum(s[i]) || s[i] == '-'
      {
        assert 0 < i <= |mid| ==> s[i] in mid;
      }
    }
  }

  /** `[a-zA-Z0-9._-]{1,100}` */
  lemma SysConfigNameIff(s: string)
    ensures SysConfigName(s) <==>
            1 <= |s| <= 100 && forall c | c in s :: Alnum(c) || 'A' <= c <= 'Z' || c in ['.', '_', '-']
  {
    assert forall i | 0 <= i < |s| :: s[i] in s;
  }

  /** The name falls into these ends at its first "--", and there is no other "--". */
  predicate LinkForm(name: string, src: string, tgt: string) {
    && name == src + "--" + tgt && src != "" && tgt != ""
    && (forall j | 0 <= j < |src| :: !(name[j] == '-' && name[j + 1] == '-'))
    && (forall j | |src| + 2 <= j < |name| - 1 :: !(name[j] == '-' && name[j + 1] == '-'))
  }

  lemma SplitLinkIff(name: string, src: string, tgt: string)
    ensures SplitLink(name) == Some((src, tgt)) <==> LinkForm(name, src, tgt)
  {
    var i := FirstDashes(name);
    if SplitLink(name).Some? {
      SplitLinkComposes(name);
      var (a, b) := SplitLink(name).value;
      assert a == name[..i] && b == name[i + 2..];
      assert FirstDashes(b) == |b|;
      assert forall j | i + 2 <= j < |name| :: name[j] == b[j - (i + 2)];
    }
    if LinkForm(name, src, tgt) {
      assert name[|src|] == '-' && name[|src| + 1] == '-';
      assert i == |src|;
      assert name[..i] == src && name[i + 2..] == tgt;
      assert forall j | 0 <= j < |tgt| :: tgt[j] == name[|src| + 2 + j];
      assert FirstDashes(tgt) == |tgt|;
      assert SplitDashes(tgt) == [tgt];
    }
  }

  // References.

  /** The field is this string, and not the empty one. */
  predicate Holds(r: Resource, field: string, name: string) {
    r.spec.Some? && field in r.spec.value && r.spec.value[field] == Str(name) && name != ""
  }

  /** The field is a `[]any` with this string in it. */
  predicate ListsName(s: Spec, field: string, name: string) {
    field in s && s[field].List? && !s[field].typed && Str(name) in s[field].xs
  }

  predicate GrantsTo(r: Resource, name: string) {
    && r.spec.Some? && "grants" in r.spec.value
    && var grants := r.spec.value["grants"];
       grants.Map? && !grants.anyKeys && ListsName(grants.m, "agents", name)
  }

  /** The resource refers to one of that kind and name. */
  ghost predicate Mentions(r: Resource, kind: Kind, name: string) {
    match r.kind
    case Agent => kind == Kind.Provider && Holds(r, "provider", name)
    case Channel => kind == Agent && Holds(r, "agentKey", name)
    case CronJob => kind == Agent && Holds(r, "agentKey", name)
    case SecureCLIGrant =>
      (kind == Agent && Holds(r, "agentKey", name)) || (kind == SecureCLI && Holds(r, "binaryName", name))
    case AgentTeam =>
      kind == Agent && (Holds(r, "lead", name) || (r.spec.Some? && ListsName(r.spec.value, "members", name)))
    case MCPServer => kind == Agent && GrantsTo(r, name)
    case AgentLink => kind == Agent && exists src, tgt :: LinkForm(r.name, src, tgt) && (name == src || name == tgt)
    case _ => false
  }

  ghost predicate IsDeclared(rs: seq<Resource>, kind: Kind, name: string) {
    exists r :: r in rs && r.kind == kind && r.name == name
  }

  lemma DeclaredIff(rs: seq<Resource>, kind: Kind, name: string)
    ensures Key(kind, name) in Declared(rs) <==> IsDeclared(rs, kind, name)
  {
    if r :| r in rs && r.kind == kind && r.name == name {
      assert r.Id() == Key(kind, name);
    }
  }

  lemma ItemsIff(s: Spec, field: string, name: string)
    ensures name in StrItems(s, field) <==> ListsName(s, field, name)
  {
    if ListsName(s, field, name) {
      var i :| 0 <= i < |s[field].xs| && s[field].xs[i] == Str(name);
      assert s[field].xs[i].s in StrItems(s, field);
    }
  }

  lemma AgentKeysIff(names: set<string>, kind: Kind, name: string)
    ensures Key(kind, name) in AgentKeys(names) <==> kind == Agent && name in names
  {
  }

  lemma LinkMentionsIff(r: Resource, kind: Kind, name: string)
    requires r.kind.AgentLink?
    ensures Key(kind, name) in Refs(r) <==> Mentions(r, kind, name)
  {
    var ends := SplitLink(r.name);
    if ends.Some? {
      SplitLinkIff(r.name, ends.value.0, ends.value.1);
    }
    if src, tgt :| LinkForm(r.name, src, tgt) && (name == src || name == tgt) {
      SplitLinkIff(r.name, src, tgt);
    }
  }

  /** The references that are checked are those in the fields. */
  lemma MentionsIff(r: Resource, kind: Kind, name: string)
    ensures Key(kind, name) in Refs(r) <==> Mentions(r, kind, name)
  {
    var s := r.Fields();
    match r.kind
    case AgentLink =>
      LinkMentionsIff(r, kind, name);
    case AgentTeam =>
      AgentKeysIff(StrItems(s, "members"), kind, name);
      ItemsIff(s, "members", name);
    case MCPServer =>
      AgentKeysIff(GrantedAgents(s), kind, name);
      if "grants" in s && s["grants"].Map? {
        ItemsIff(s["grants"].m, "agents", name);
      }
    case _ =>
  }

  /** A field of a link's spec is no other string than the end it stands for. */
  ghost predicate Agrees(r: Resource, field: string, end: string) {
    forall other :: Holds(r, field, other) ==> other == end
  }

  /** A link's name has two ends, and its spec does not contradict them. */
  ghost predicate LinkAgrees(r: Resource) {
    exists src, tgt :: LinkForm(r.name, src, tgt) && Agrees(r, "sourceAgent", src) && Agrees(r, "targetAgent", tgt)
  }

  lemma AgreesIff(r: Resource, field: string, end: string)
    ensures Agrees(r, field, end) <==> StrField(r.Fields(), field) == "" || StrField(r.Fields(), field) == end
  {
    var held := StrField(r.Fields(), field);
    if held != "" {
      assert Holds(r, field, held);
    }
  }

  lemma LinkAgreesIff(r: Resource)
    ensures LinkOk(r) <==> (r.kind.AgentLink? ==> LinkAgrees(r))
  {
    var ends := SplitLink(r.name);
    if ends.Some? {
      SplitLinkIff(r.name, ends.value.0, ends.value.1);
      AgreesIff(r, "sourceAgent", ends.value.0);
      AgreesIff(r, "targetAgent", ends.value.1);
    }
    if src, tgt :| LinkForm(r.name, src, tgt) && Agrees(r, "sourceAgent", src) && Agrees(r, "targetAgent", tgt) {
      SplitLinkIff(r.name, src, tgt);
    }
  }

  /** Every mentioned resource is declared, every link agrees with its name. */
  ghost predicate Closed(rs: seq<Resource>) {
    && (forall r, kind, name | r in rs && Mentions(r, kind, name) :: IsDeclared(rs, kind, name))
    && forall r | r in rs && r.kind.AgentLink? :: LinkAgrees(r)
  }

  /** Main result on references. */
  lemma ReferencedIffClosed(rs: seq<Resource>)
    ensures Referenced(rs) <==> Closed(rs)
  {
    forall r | r in rs
      ensures LinkOk(r) <==> (r.kind.AgentLink? ==> LinkAgrees(r))
    {
      LinkAgreesIff(r);
    }
    forall r, kind, name
      ensures Key(kind, name) in Refs(r) <==> Mentions(r, kind, name)
      ensures Key(kind, name) in Declared(rs) <==> IsDeclared(rs, kind, name)
    {
      MentionsIff(r, kind, name);
      DeclaredIff(rs, kind, name);
    }
    if Closed(rs) {
      forall i, k | 0 <= i < |rs| && k in Refs(rs[i])
        ensures k in Declared(rs)
      {
        assert Mentions(rs[i], k.kind, k.name) && k == Key(k.kind, k.name);
      }
    }
  }

  // Skills.

  /** The field, when it is a string, is one of these texts. */
  predicate Allows(s: Spec, field: string, texts: seq<string>) {
    field in s && s[field].Str? ==> s[field].s in texts
  }

  /** A `[]any` of these strings, each of them once. */
  predicate IsTags(v: Value, tags: seq<string>) {
    && v == List(false, seq(|tags|, i requires 0 <= i < |tags| => Str(tags[i])))
    && forall i, j | 0 <= i < j < |tags| :: tags[i] != tags[j]
  }

  /** `requires.cli` asks for this of the tool. */
  predicate AsksOf(s: Spec, tool: string, what: Value) {
    && "requires" in s && s["requires"].Map? && !s["requires"].anyKeys
    && var reqs := s["requires"].m;
       && "cli" in reqs && reqs["cli"].Map? && !reqs["cli"].anyKeys
       && tool in reqs["cli"].m && reqs["cli"].m[tool] == what
  }

  lemma EnumsIff(s: Spec)
    ensures OneOf(s, "visibility", VISIBILITIES) <==>
            Allows(s, "visibility", ["", "private", "internal", "public", "tenant"])
    ensures OneOf(s, "status", STATUSES) <==> Allows(s, "status", ["", "active", "archived", "deleted", "draft"])
  {
  }

  lemma TagsIff(s: Spec)
    ensures TagsOk(s) <==> ("tags" in s && s["tags"] != Null ==> exists tags :: IsTags(s["tags"], tags))
  {
    if TagsOk(s) && "tags" in s && s["tags"] != Null {
      var xs := s["tags"].xs;
      var tags := seq(|xs|, i requires 0 <= i < |xs| => xs[i].s);
      assert xs == seq(|tags|, i requires 0 <= i < |tags| => Str(tags[i]));
      assert IsTags(s["tags"], tags);
    }
  }

  lemma CliIff(lib: Library, s: Spec)
    ensures (forall b | b in Cli(s) :: Cli(s)[b].Str? && GoodConstraint(lib, Cli(s)[b].s)) <==>
            forall tool, what | AsksOf(s, tool, what) :: what.Str? && GoodConstraint(lib, what.s)
  {
    forall b, what
      ensures AsksOf(s, b, what) <==> b in Cli(s) && Cli(s)[b] == what
    {
    }
    forall b | b in Cli(s)
      ensures AsksOf(s, b, Cli(s)[b])
    {
    }
  }

  /** The Skill specs that are accepted. */
  ghost predicate SoundSkill(lib: Library, s: Spec) {
    && Allows(s, "visibility", ["", "private", "internal", "public", "tenant"])
    && Allows(s, "status", ["", "active", "archived", "deleted", "draft"])
    && ("tags" in s && s["tags"] != Null ==> exists tags :: IsTags(s["tags"], tags))
    && ("sourceDir" in s && s["sourceDir"].Str? && s["sourceDir"].s != "" ==> lib.packs(s["sourceDir"].s))
    && forall tool, what | AsksOf(s, tool, what) ::
         what.Str? && exists a, b, v, c :: HasForm(lib, what.s, a, b, v, c)
  }

  predicate PlainSpaces(lib: Library) {
    !lib.isSpace('>') && !lib.isSpace('^') && !lib.isSpace('~') && !lib.isSpace(',')
  }

  lemma SkillOkIff(lib: Library, s: Spec)
    requires PlainSpaces(lib)
    ensures SkillOk(lib, s) <==> SoundSkill(lib, s)
  {
    EnumsIff(s);
    TagsIff(s);
    CliIff(lib, s);
    forall text
      ensures GoodConstraint(lib, text) <==> exists a, b, v, c :: HasForm(lib, text, a, b, v, c)
    {
      GoodConstraintIff(lib, text);
    }
  }

  // The whole manifest.

  ghost predicate SoundName(kind: Kind, name: string) {
    if kind == SystemConfig then
      1 <= |name| <= 100 && forall c | c in name :: Alnum(c) || 'A' <= c <= 'Z' || c in ['.', '_', '-']
    else exists first, mid, last :: KeyForm(name, first, mid, last)
  }

  ghost predicate SoundResource(lib: Library, r: Resource) {
    && !r.kind.Unknown? && SoundName(r.kind, r.name) && r.spec.Some?
    && (r.kind == Skill ==> SoundSkill(lib, r.spec.value))
  }

  lemma ShapedIffSound(lib: Library, r: Resource)
    requires PlainSpaces(lib)
    ensures Shaped(lib, r) <==> SoundResource(lib, r)
  {
    KeyNameIff(r.name);
    SysConfigNameIff(r.name);
    SkillOkIff(lib, r.Fields());
  }

  /** Main result: what is accepted, from the fields up. */
  lemma ValidIff(lib: Library, m: Manifest)
    requires PlainSpaces(lib)
    ensures Valid(lib, m) <==>
            && m.apiVersion == "gcplane.io/v1" && m.kind == "Manifest"
            && (forall r | r in m.resources :: SoundResource(lib, r))
            && (forall i, j | 0 <= i < j < |m.resources| ::
                  m.resources[i].kind != m.resources[j].kind || m.resources[i].name != m.resources[j].name)
            && Closed(m.resources)
  {
    ReferencedIffClosed(m.resources);
    forall r | r in m.resources
      ensures Shaped(lib, r) <==> SoundResource(lib, r)
    {
      ShapedIffSound(lib, r);
    }
  }

  /** Field by field: in a valid manifest whatever a resource names is declared. */
  lemma ValidDeclares(lib: Library, m: Manifest, r: Resource, name: string)
    requires Valid(lib, m) && r in m.resources
    ensures r.kind == Agent && Holds(r, "provider", name) ==> IsDeclared(m.resources, Kind.Provider, name)
    ensures r.kind in {Channel, CronJob, SecureCLIGrant} && Holds(r, "agentKey", name) ==>
              IsDeclared(m.resources, Agent, name)
    ensures r.kind == SecureCLIGrant && Holds(r, "binaryName", name) ==> IsDeclared(m.resources, SecureCLI, name)
    ensures r.kind == AgentTeam && (Holds(r, "lead", name) || ListsName(r.spec.value, "members", name)) ==>
              IsDeclared(m.resources, Agent, name)
    ensures r.kind == MCPServer && GrantsTo(r, name) ==> IsDeclared(m.resources, Agent, name)
    ensures r.kind == AgentLink ==> exists src, tgt ::
              && LinkForm(r.name, src, tgt) && Agrees(r, "sourceAgent", src) && Agrees(r, "targetAgent", tgt)
              && IsDeclared(m.resources, Agent, src) && IsDeclared(m.resources, Agent, tgt)
  {
    ReferencedIffClosed(m.resources);
    assert Shaped(lib, r);
    if r.kind == AgentLink {
      var src, tgt :| LinkForm(r.name, src, tgt) && Agrees(r, "sourceAgent", src) && Agrees(r, "targetAgent", tgt);
      assert Mentions(r, Agent, src) && Mentions(r, Agent, tgt);
    }
    assert forall kind :: Mentions(r, kind, name) ==> IsDeclared(m.resources, kind, name);
  }

  /** What is reported about references: each undeclared one, each link name without two ends, each contradiction. */
  lemma ReportedIff(lib: Library, m: Manifest, i: nat, kind: Kind, name: string)
    ensures ProblemOf(NotDeclared(i, Key(kind, name)), lib, m) <==>
            i < |m.resources| && Mentions(m.resources[i], kind, name) && !IsDeclared(m.resources, kind, name)
    ensures ProblemOf(BadLinkName(i), lib, m) <==>
            && i < |m.resources| && m.resources[i].kind == AgentLink
            && !exists src, tgt :: LinkForm(m.resources[i].name, src, tgt)
  {
    var rs := m.resources;
    if i < |rs| {
      MentionsIff(rs[i], kind, name);
      DeclaredIff(rs, kind, name);
      var ends := SplitLink(rs[i].name);
      if ends.Some? {
        SplitLinkIff(rs[i].name, ends.value.0, ends.value.1);
      }
      if src, tgt :| LinkForm(rs[i].name, src, tgt) {
        SplitLinkIff(rs[i].name, src, tgt);
      }
    }
  }

  lemma MismatchReportedIff(lib: Library, m: Manifest, i: nat, src: string, tgt: string)
    requires i < |m.resources| && m.resources[i].kind == AgentLink && LinkForm(m.resources[i].name, src, tgt)
    ensures ProblemOf(LinkMismatch(i, "sourceAgent"), lib, m) <==> !Agrees(m.resources[i], "sourceAgent", src)
    ensures ProblemOf(LinkMismatch(i, "targetAgent"), lib, m) <==> !Agrees(m.resources[i], "targetAgent", tgt)
  {
    var r := m.resources[i];
    SplitLinkIff(r.name, src, tgt);
    AgreesIff(r, "sourceAgent", src);
    AgreesIff(r, "targetAgent", tgt);
  }

  /** A repeated identity is reported at the later place, among resources of known kinds. */
  lemma DuplicateReportedIff(lib: Library, m: Manifest, i: nat)
    requires KnownKinds(m.resources)
    ensures ProblemOf(Duplicate(i), lib, m) <==>
            i < |m.resources| && exists j :: 0 <= j < i && m.resources[j].Id() == m.resources[i].Id()
  {
    var rs := m.resources;
    if i < |rs| {
      forall j | 0 <= j < i
        ensures Uid(rs[j]) == Uid(rs[i]) <==> rs[j].Id() == rs[i].Id()
      {
        UidIsIdentity(rs[j], rs[i]);
      }
      if Uid(rs[i]) in Uids(rs[..i]) {
        var r :| r in rs[..i] && Uid(r) == Uid(rs[i]);
        var j :| 0 <= j < i && rs[j] == r;
      }
      if j :| 0 <= j < i && rs[j].Id() == rs[i].Id() {
        assert rs[..i][j] == rs[j];
      }
    }
  }

  /** Main result: in the plan for a valid manifest, what a field of a resource names comes before the resource. */
  lemma MentionedComesFirst(p: ReconcileSpec.Provider, env: Env, lib: Library, m: Manifest, opts: Opts, store: Store,
                            r: Resource, kind: Kind, name: string, j: nat)
    requires Valid(lib, m) && r in m.resources && Mentions(r, kind, name)
    requires var cs := Reconcile(p, env, m.resources, opts, store).plan.changes;
             j < |m.resources| <= |cs| && cs[j].kind == r.kind && cs[j].name == r.name
    ensures var cs := Reconcile(p, env, m.resources, opts, store).plan.changes;
            exists i :: 0 <= i < j && cs[i].kind == kind && cs[i].name == name && !cs[i].action.Delete?
  {
    MentionsIff(r, kind, name);
    ReferencesComeFirst(p, env, lib, m, opts, store, r, Key(kind, name), j);
  }
}
