/**
 What extraction reads for terraform, helm and argocd (pkg/mcpserver/intent.go:56-71, pkg/mcpserver/intent.go:131-179).
 */
module Plans {
  import opened Wrappers
  import opened Sorting
  import opened Intent
  import opened Workloads
  import Strings

  datatype Rule = Rule(cidr: string, cidrBlocks: string)

  /** IAM actions, in the generic and in the AWS spelling. */
  datatype Statement = Statement(actions: seq<string>, awsActions: seq<string>)

  datatype Plan = Plan(types: seq<string>, destroyCount: Option<int>, rules: seq<Rule>, statements: seq<Statement>)

  function RulePayload(r: Rule): Json {
    Object(map["cidr" := Text(r.cidr), "cidr_blocks" := Text(r.cidrBlocks)])
  }

  function StatementPayload(s: Statement): Json {
    Object(map["actions" := List(Texts(s.actions)), "Action" := List(Texts(s.awsActions))])
  }

  function RulePayloads(rules: seq<Rule>): seq<Json> {
    seq(|rules|, i requires 0 <= i < |rules| => RulePayload(rules[i]))
  }

  function StatementPayloads(statements: seq<Statement>): seq<Json> {
    seq(|statements|, i requires 0 <= i < |statements| => StatementPayload(statements[i]))
  }

  function PlanPayload(p: Plan): Fields {
    var fields: Fields := map["resource_types" := List(Texts(p.types)),
      "security_group_rules" := List(RulePayloads(p.rules)),
      "iam_policy_statements" := List(StatementPayloads(p.statements))];
    if p.destroyCount.None? then fields else fields["destroy_count" := Number(p.destroyCount.value)]
  }

  /** The address ranges a plan opens. */
  function Cidrs(rules: seq<Rule>): seq<string> {
    if rules == [] then []
    else
      var r := rules[|rules| - 1];
      var cidr, blocks := Strings.TrimSpace(r.cidr), Strings.TrimSpace(r.cidrBlocks);
      Cidrs(rules[..|rules| - 1]) + (if cidr == "" then [] else [cidr]) + (if blocks == "" then [] else [blocks])
  }

  /** The actions a plan grants. */
  function Actions(statements: seq<Statement>): seq<string> {
    if statements == [] then []
    else
      var s := statements[|statements| - 1];
      Actions(statements[..|statements| - 1]) + s.actions + s.awsActions
  }

  lemma RuleReads(r: Rule)
    ensures var cidr, blocks := Strings.TrimSpace(r.cidr), Strings.TrimSpace(r.cidrBlocks);
            CidrsOf(RulePayload(r)) == (if cidr == "" then [] else [cidr]) + (if blocks == "" then [] else [blocks])
  {
    hide Strings.TrimSpace;
  }

  lemma StatementReads(s: Statement)
    ensures ActionsOf(StatementPayload(s)) == s.actions + s.awsActions
  {
    hide Gather, Texts;
    GatherTexts(s.actions);
    GatherTexts(s.awsActions);
  }

  lemma {:induction false} RulesRead(rules: seq<Rule>)
    ensures Gather(CidrsOf, RulePayloads(rules)) == Cidrs(rules)
  {
    hide CidrsOf, RulePayload, Strings.TrimSpace;
    if rules != [] {
      var n := |rules| - 1;
      RulesRead(rules[..n]);
      RuleReads(rules[n]);
      assert RulePayloads(rules)[..n] == RulePayloads(rules[..n]);
    }
  }

  lemma {:induction false} StatementsRead(statements: seq<Statement>)
    ensures Gather(ActionsOf, StatementPayloads(statements)) == Actions(statements)
  {
    hide ActionsOf, StatementPayload;
    if statements != [] {
      var n := |statements| - 1;
      StatementsRead(statements[..n]);
      StatementReads(statements[n]);
      assert StatementPayloads(statements)[..n] == StatementPayloads(statements[..n]);
    }
  }

  lemma PlanFields(p: Plan)
    ensures var payload := PlanPayload(p);
            && ExtractList(payload, "resource_types") == Texts(p.types)
            && ExtractInt(payload, "destroy_count") == p.destroyCount
            && ExtractList(payload, "security_group_rules") == RulePayloads(p.rules)
            && ExtractList(payload, "iam_policy_statements") == StatementPayloads(p.statements)
  {
    hide Texts, RulePayloads, StatementPayloads;
  }

  /** Items of the wrong kind contribute nothing, and texts exactly themselves. */
  lemma {:induction false} OnlyTextsCount(items: seq<Json>, x: string)
    ensures x in Gather(TextOf, items) <==> Text(x) in items
    ensures |Gather(TextOf, items)| <= |items|
  {
    if items != [] { OnlyTextsCount(items[..|items| - 1], x); }
  }

  lemma OnlyObjectsCount(rules: seq<Json>)
    requires forall i :: 0 <= i < |rules| ==> !rules[i].Object?
    ensures Gather(CidrsOf, rules) == [] && Gather(ActionsOf, rules) == []
  {
    GatherNothing(CidrsOf, rules);
    GatherNothing(ActionsOf, rules);
  }

  /** A list in ascending order with the same strings. */
  ghost predicate IsSortedFrom(s: seq<string>, from: seq<string>) {
    Sorted(Strings.Less, s) && multiset(s) == multiset(from)
  }

  lemma SortIsSorted(s: seq<string>)
    ensures IsSortedFrom(Sort(Strings.Less, s), s)
  {
    hide Strings.Less;
    Strings.LessIsStrictOrder();
    SortSorted(Strings.Less, s);
  }

  /** The terraform intent of a plan: its types, count, address ranges and actions, each list sorted. */
  lemma PlanIntent(base: SemanticIntent, p: Plan)
    ensures var intent := TerraformIntent(base, PlanPayload(p));
            && IsSortedFrom(intent.resourceTypes, p.types)
            && intent.destroyCount == p.destroyCount
            && IsSortedFrom(intent.cidrs, Cidrs(p.rules))
            && IsSortedFrom(intent.iamActions, Actions(p.statements))
            && intent == base.(resourceTypes := intent.resourceTypes, destroyCount := intent.destroyCount,
                               cidrs := intent.cidrs, iamActions := intent.iamActions)
  {
    hide PlanPayload, ExtractList, ExtractInt, Gather, Sort, Texts, RulePayloads, StatementPayloads, IsSortedFrom;
    PlanFields(p);
    GatherTexts(p.types);
    RulesRead(p.rules);
    StatementsRead(p.statements);
    SortIsSorted(p.types);
    SortIsSorted(Cidrs(p.rules));
    SortIsSorted(Actions(p.statements));
  }

  /** Every tool is read in its own way; an unknown tool, or a missing payload, leaves tool and operation only. */
  lemma ToolsRead(lib: Library, tool: string, operation: string, payload: Fields)
    ensures var t := lib.lower(Strings.TrimSpace(tool));
            var bare := BareIntent(lib, tool, operation);
            var intent := ExtractSemanticIntent(lib, tool, operation, Some(payload));
            && bare.tool == t && bare.operation == lib.lower(Strings.TrimSpace(operation))
            && ExtractSemanticIntent(lib, tool, operation, None) == bare
            && (t == "kubectl" || t == "oc" ==> intent == K8sIntent(lib, bare, payload))
            && (t == "terraform" ==> intent == TerraformIntent(bare, payload))
            && (t != "kubectl" && t != "oc" && t != "terraform" && t != "helm" && t != "argocd" ==> intent == bare)
  {
    hide K8sIntent, TerraformIntent, Strings.TrimSpace, ExtractString, ExtractMap;
  }

  /** helm: the namespace of the payload, or else of its metadata. */
  lemma HelmReads(lib: Library, tool: string, operation: string, namespace: string, meta: string)
    requires lib.lower(Strings.TrimSpace(tool)) == "helm"
    ensures var payload: Fields := map["namespace" := Text(namespace),
                                       "metadata" := Object(map["namespace" := Text(meta)])];
            ExtractSemanticIntent(lib, tool, operation, Some(payload))
            == BareIntent(lib, tool, operation).(helmNamespace := lib.lower(
                 if Strings.TrimSpace(namespace) != "" then Strings.TrimSpace(namespace) else Strings.TrimSpace(meta)))
  {
    hide K8sIntent, TerraformIntent, Strings.TrimSpace;
  }

  /** argocd: the application name. */
  lemma ArgoReads(lib: Library, tool: string, operation: string, app: string)
    requires lib.lower(Strings.TrimSpace(tool)) == "argocd"
    ensures var payload: Fields := map["app_name" := Text(app)];
            ExtractSemanticIntent(lib, tool, operation, Some(payload))
            == BareIntent(lib, tool, operation).(appName := lib.lower(Strings.TrimSpace(app)))
  {
    hide K8sIntent, TerraformIntent, Strings.TrimSpace;
  }
}
