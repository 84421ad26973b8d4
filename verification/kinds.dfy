/** Resource kinds, the order in which they are applied and deleted, and the per-kind field tables. */
module Kinds {

  datatype Kind =
    | Tenant | Provider | Agent | Skill | BuiltinToolConfig | SkillConfig | SystemConfig | MCPServer
    | MCPCredentials | Channel | CronJob | SecureCLI | SecureCLIGrant | AgentTeam | AgentLink | Workstation
    | Unknown(text: string)

  /** The identity of a resource. */
  datatype Key = Key(kind: Kind, name: string)

  /** The kinds in dependency order. */
  function KindAt(rank: nat): Kind {
    match rank
    case 0 => Tenant
    case 1 => Provider
    case 2 => Agent
    case 3 => Skill
    case 4 => BuiltinToolConfig
    case 5 => SkillConfig
    case 6 => SystemConfig
    case 7 => MCPServer
    case 8 => MCPCredentials
    case 9 => Channel
    case 10 => CronJob
    case 11 => SecureCLI
    case 12 => SecureCLIGrant
    case 13 => AgentTeam
    case 14 => AgentLink
    case _ => Workstation
  }

  function ApplyOrder(): (order: seq<Kind>)
    ensures |order| == 16 && forall i | 0 <= i < 16 :: order[i] == KindAt(i)
  {
    seq(16, i requires 0 <= i < 16 => KindAt(i))
  }

  /** The place of a kind in the apply order; unknown kinds have none and come after it. */
  function Rank(k: Kind): (r: nat)
    ensures r < |ApplyOrder()| <==> !k.Unknown?
    ensures r < |ApplyOrder()| ==> ApplyOrder()[r] == k
  {
    match k
    case Tenant => 0
    case Provider => 1
    case Agent => 2
    case Skill => 3
    case BuiltinToolConfig => 4
    case SkillConfig => 5
    case SystemConfig => 6
    case MCPServer => 7
    case MCPCredentials => 8
    case Channel => 9
    case CronJob => 10
    case SecureCLI => 11
    case SecureCLIGrant => 12
    case AgentTeam => 13
    case AgentLink => 14
    case Workstation => 15
    case Unknown(_) => 16
  }

  /** The apply order lists every known kind once: each kind is found at its rank and nowhere else. */
  lemma ApplyOrderByRank(i: nat)
    requires i < |ApplyOrder()|
    ensures Rank(ApplyOrder()[i]) == i && !ApplyOrder()[i].Unknown?
  {
  }

  /** Tenants come before everything, and what is set up on something after it. */
  lemma BasesFirst(kind: Kind)
    ensures kind != Tenant ==> Rank(Tenant) < Rank(kind)
    ensures Rank(Skill) < Rank(SkillConfig) && Rank(MCPServer) < Rank(MCPCredentials)
    ensures Rank(SecureCLI) < Rank(SecureCLIGrant) && Rank(Agent) < Rank(Workstation)
  {
  }

  function Reversed<T>(s: seq<T>): (r: seq<T>)
    ensures |r| == |s| && forall i :: 0 <= i < |s| ==> r[i] == s[|s| - 1 - i]
  {
    seq(|s|, i requires 0 <= i < |s| => s[|s| - 1 - i])
  }

  /** The delete order is the apply order read backwards. */
  method DeleteOrder() returns (reversed: array<Kind>)
    ensures fresh(reversed) && reversed[..] == Reversed(ApplyOrder())
  {
    var order := ApplyOrder();
    reversed := new Kind[|order|](_ => Tenant);
    for i := 0 to |order|
      invariant forall j :: |order| - i <= j < |order| ==> reversed[j] == order[|order| - 1 - j]
    {
      reversed[|order| - 1 - i] := order[i];
    }
  }

  /** Fields that are sent but never returned. */
  function WriteOnlyFields(kind: Kind): seq<string> {
    match kind
    case Provider => ["apiKey"]
    case Agent => ["contextFiles", "systemPrompt", "toolsConfig", "sandboxConfig", "subagentsConfig",
                   "memoryConfig", "compactionConfig", "contextPruning", "otherConfig", "reasoningConfig",
                   "workspaceSharing", "chatgptOauthRouting", "shellDenyGroups", "kgDedupConfig"]
    case Channel => ["agentKey", "credentials", "config"]
    case MCPServer => ["grants", "headers"]
    case CronJob => ["agentKey", "message"]
    case AgentTeam => ["lead", "members", "displayName"]
    case Skill => ["sourceDir", "version"]
    case MCPCredentials => ["credentials"]
    case SecureCLI => ["env"]
    case SecureCLIGrant => ["agentKey", "binaryName"]
    case AgentLink => ["sourceAgent", "targetAgent", "settings"]
    case Workstation => ["privateKey", "knownHostsFingerprint", "host", "port", "user", "connectTimeoutSec",
                         "allowlist", "agents"]
    case _ => []
  }

  /** The kinds whose server side stores the write-only hash and returns it. */
  predicate SupportsWriteOnlyHash(kind: Kind) {
    kind == CronJob || kind == Provider || kind == Agent
  }

  /** The kinds the prune phase walks. */
  predicate Prunable(kind: Kind) {
    && !kind.Unknown? && kind != Skill && kind != BuiltinToolConfig && kind != SkillConfig
    && kind != SystemConfig && kind != MCPCredentials && kind != SecureCLIGrant
  }
}
