/** From the parsed `architecture.toml` to the module rules, or to the first fault found in it. */
module RuleLoading {
  import opened Wrappers
  import opened Ordering
  import opened ModuleGraph
  import opened CycleDetection
  import opened ImportMatching

  /** One `[modules.<name>]` table; `path` and `importPrefix` may be missing, `may_import` defaults to empty. */
  datatype RawRule = RawRule(name: string, path: Option<Path>, importPrefix: Option<string>, mayImport: seq<string>)

  /** The parsed file; `modules` is absent when the key is missing or is not a table. */
  datatype Config = Config(version: Option<int>, modules: Option<seq<RawRule>>)

  datatype PolicyError =
    | UnsupportedVersion
    | NoModules
    | MissingKey(name: string)
    | UnsafePath(name: string)
    | DuplicatePath(path: Path)
    | DuplicatePrefix(importPrefix: string)
    | UnknownModules(name: string, unknown: set<string>)
    | SelfImport(name: string)
    | DependencyCycle(chain: seq<string>)

  /** What the TOML parser guarantees: the keys of a table are distinct. */
  ghost predicate DistinctNames(raws: seq<RawRule>) {
    forall i, j :: 0 <= i < j < |raws| ==> raws[i].name != raws[j].name
  }

  /** Some table has this name. */
  ghost predicate Declared(raws: seq<RawRule>, name: string) {
    exists j :: 0 <= j < |raws| && raws[j].name == name
  }

  /** The table named `a` lists `b` under `may_import`. */
  ghost predicate Lists(raws: seq<RawRule>, a: string, b: string) {
    exists i :: 0 <= i < |raws| && raws[i].name == a && b in raws[i].mayImport
  }

  ghost function Listed(raws: seq<RawRule>, a: string): (targets: set<string>)
    ensures forall b :: b in targets <==> Lists(raws, a, b)
  {
    set i, b | 0 <= i < |raws| && raws[i].name == a && b in raws[i].mayImport :: b
  }

  /** The graph of the file: its modules are the tables, its edges the entries under `may_import`. */
  ghost function DeclaredGraph(raws: seq<RawRule>): (g: Graph)
    ensures forall n :: n in g <==> Declared(raws, n)
    ensures forall a, b :: Edge(g, a, b) <==> Lists(raws, a, b)
  {
    var names := set i | 0 <= i < |raws| :: raws[i].name;
    map name | name in names :: Listed(raws, name)
  }

  /** The first `n` tables list only other declared modules. */
  ghost predicate ListsOthers(raws: seq<RawRule>, n: nat)
    requires n <= |raws|
  {
    forall i, d :: 0 <= i < n && d in raws[i].mayImport ==> Declared(raws, d) && d != raws[i].name
  }

  predicate Complete(raw: RawRule) {
    raw.path.Some? && raw.importPrefix.Some?
  }

  predicate Unsafe(path: Path) {
    path.absolute || ".." in path.parts
  }

  ghost predicate DeclarationsSound(raws: seq<RawRule>) {
    && (forall i :: 0 <= i < |raws| ==> Complete(raws[i]) && !Unsafe(raws[i].path.value))
    && (forall i, j :: 0 <= i < j < |raws| ==>
          raws[i].path != raws[j].path && raws[i].importPrefix != raws[j].importPrefix)
  }

  function RuleOf(raw: RawRule): ModuleRule
    requires Complete(raw)
  {
    ModuleRule(raw.name, raw.path.value, raw.importPrefix.value, set d | d in raw.mayImport)
  }

  /** The rules in the order of the file, as the insertion-ordered dict holds them. */
  function RulesOf(raws: seq<RawRule>): (rules: seq<ModuleRule>)
    requires forall i :: 0 <= i < |raws| ==> Complete(raws[i])
  {
    seq(|raws|, i requires 0 <= i < |raws| => RuleOf(raws[i]))
  }

  function Names(rules: seq<ModuleRule>): set<string> {
    set rule | rule in rules :: rule.name
  }

  /** A dict holds one rule for each name. */
  ghost predicate OneRulePerName(rules: seq<ModuleRule>) {
    forall i, j :: 0 <= i < j < |rules| ==> rules[i].name != rules[j].name
  }

  function GraphOf(rules: seq<ModuleRule>): (g: Graph)
    requires OneRulePerName(rules)
    ensures g.Keys == Names(rules)
    ensures forall rule :: rule in rules ==> g[rule.name] == rule.mayImport
  {
    map rule | rule in rules :: rule.name := rule.mayImport
  }

  /** No rule lists a name that is not declared, and none lists itself. */
  ghost predicate ReferencesSound(rules: seq<ModuleRule>, names: set<string>) {
    forall i :: 0 <= i < |rules| ==> rules[i].mayImport <= names && rules[i].name !in rules[i].mayImport
  }

  /** What `load_rules` demands of the file, said of its tables and without reference to any order. */
  ghost predicate Acceptable(config: Config) {
    && config.version == Some(1)
    && config.modules.Some? && config.modules.value != []
    && var raws := config.modules.value;
       && DistinctNames(raws)
       && (forall raw :: raw in raws ==> raw.path.Some? && raw.importPrefix.Some?)
       && (forall raw :: raw in raws ==> !raw.path.value.absolute && ".." !in raw.path.value.parts)
       && (forall i, j :: 0 <= i < j < |raws| ==>
             raws[i].path != raws[j].path && raws[i].importPrefix != raws[j].importPrefix)
       && ListsOthers(raws, |raws|)
       && Acyclic(DeclaredGraph(raws))
  }

  /** The loaded rules are the tables, one rule for each and in order. */
  ghost predicate RulesOfTables(rules: seq<ModuleRule>, raws: seq<RawRule>) {
    && |rules| == |raws|
    && (forall i :: 0 <= i < |raws| ==>
          && rules[i].name == raws[i].name
          && Some(rules[i].path) == raws[i].path
          && Some(rules[i].importPrefix) == raws[i].importPrefix)
    && (forall i, d :: 0 <= i < |raws| ==> (d in rules[i].mayImport <==> d in raws[i].mayImport))
  }

  /** The reported fault is there, and it is the first one in the order of the checks. */
  ghost predicate Explains(config: Config, error: PolicyError) {
    if error.UnsupportedVersion? then config.version != Some(1)
    else
      && config.version == Some(1)
      && if error.NoModules? then config.modules.None? || config.modules.value == []
         else
           && config.modules.Some?
           && DistinctNames(config.modules.value)
           && (exists i :: 0 <= i < |config.modules.value| && FirstFault(config.modules.value, i, error))
  }

  ghost predicate FirstFault(raws: seq<RawRule>, i: nat, error: PolicyError)
    requires i < |raws| && DistinctNames(raws)
  {
    match error
    case UnsupportedVersion => false
    case NoModules => false
    case MissingKey(name) =>
      DeclarationsSound(raws[..i]) && raws[i].name == name && !Complete(raws[i])
    case UnsafePath(name) =>
      DeclarationsSound(raws[..i]) && raws[i].name == name && Complete(raws[i]) && Unsafe(raws[i].path.value)
    case DuplicatePath(path) =>
      && DeclarationsSound(raws[..i]) && Complete(raws[i]) && !Unsafe(raws[i].path.value)
      && raws[i].path == Some(path) && exists j :: 0 <= j < i && raws[j].path == Some(path)
    case DuplicatePrefix(prefix) =>
      && DeclarationsSound(raws[..i]) && Complete(raws[i]) && !Unsafe(raws[i].path.value)
      && (forall j :: 0 <= j < i ==> raws[j].path != raws[i].path)
      && raws[i].importPrefix == Some(prefix) && exists j :: 0 <= j < i && raws[j].importPrefix == Some(prefix)
    case UnknownModules(name, unknown) =>
      && DeclarationsSound(raws) && ListsOthers(raws, i) && raws[i].name == name
      && unknown != {} && forall d :: d in unknown <==> d in raws[i].mayImport && !Declared(raws, d)
    case SelfImport(name) =>
      && DeclarationsSound(raws) && ListsOthers(raws, i) && raws[i].name == name
      && name in raws[i].mayImport && forall d :: d in raws[i].mayImport ==> Declared(raws, d)
    case DependencyCycle(chain) =>
      && DeclarationsSound(raws) && ListsOthers(raws, |raws|)
      && CycleWitness(DeclaredGraph(raws), chain) && chain[0] == raws[i].name
      && (forall j :: 0 <= j < i ==> !LeadsToCycle(DeclaredGraph(raws), raws[j].name))
  }

  method LoadRules(config: Config) returns (r: Result<seq<ModuleRule>, PolicyError>)
    requires config.modules.Some? ==> DistinctNames(config.modules.value)
    ensures r.Ok? <==> Acceptable(config)
    ensures r.Ok? ==> r.value == RulesOf(config.modules.value) && RulesOfTables(r.value, config.modules.value)
    ensures r.Err? ==> Explains(config, r.error)
  {
    if config.version != Some(1) {
      return Err(UnsupportedVersion);
    }
    if config.modules.None? || config.modules.value == [] {
      return Err(NoModules);
    }
    SoundDeclarations(config.modules.value);
    var declared := LoadDeclarations(config.modules.value);
    if declared.Err? {
      return declared;
    }
    var rules := declared.value;
    var referenced := CheckReferences(config.modules.value, rules);
    if referenced.Err? {
      return Err(referenced.error);
    }
    var searched := CheckCycles(config.modules.value, rules);
    if searched.Err? {
      return Err(searched.error);
    }
    return Ok(rules);
  }

  /** The rules are the tables: nothing of a table is lost or changed. */
  lemma RulesAreTables(raws: seq<RawRule>)
    requires forall i :: 0 <= i < |raws| ==> Complete(raws[i])
    ensures RulesOfTables(RulesOf(raws), raws)
  {
  }

  lemma NamesAreDeclared(raws: seq<RawRule>, rules: seq<ModuleRule>)
    requires RulesOfTables(rules, raws)
    ensures forall n :: n in Names(rules) <==> Declared(raws, n)
  {
    forall n ensures n in Names(rules) <==> Declared(raws, n) {
      if n in Names(rules) {
        var i :| 0 <= i < |rules| && rules[i].name == n;
        assert raws[i].name == n;
      }
      if Declared(raws, n) {
        var i :| 0 <= i < |raws| && raws[i].name == n;
        assert rules[i] in rules && rules[i].name == n;
      }
    }
  }

  lemma RuleListsAsDeclared(raws: seq<RawRule>, rules: seq<ModuleRule>, i: nat)
    requires RulesOfTables(rules, raws) && OneRulePerName(rules) && i < |rules|
    ensures forall d :: d in rules[i].mayImport <==> Lists(raws, rules[i].name, d)
  {
    forall d | Lists(raws, rules[i].name, d) ensures d in rules[i].mayImport {
      var j :| 0 <= j < |raws| && raws[j].name == rules[i].name && d in raws[j].mayImport;
      assert rules[j].name == rules[i].name;
      assert i == j;
    }
    assert forall d :: d in rules[i].mayImport ==> d in raws[i].mayImport;
  }

  lemma EdgesAreListed(raws: seq<RawRule>, rules: seq<ModuleRule>, a: string, b: string)
    requires RulesOfTables(rules, raws) && OneRulePerName(rules)
    ensures Edge(GraphOf(rules), a, b) <==> Lists(raws, a, b)
  {
    if i :| 0 <= i < |rules| && rules[i].name == a {
      RuleListsAsDeclared(raws, rules, i);
      assert rules[i] in rules;
    } else {
      assert !Lists(raws, a, b) by {
        assert forall i :: 0 <= i < |raws| ==> rules[i].name == raws[i].name;
      }
    }
  }

  lemma SameEdges(g: Graph, h: Graph)
    requires g.Keys == h.Keys && forall a, b :: Edge(g, a, b) <==> Edge(h, a, b)
    ensures g == h
  {
    forall n | n in g ensures g[n] == h[n] {
      assert forall d :: d in g[n] <==> Edge(g, n, d);
      assert forall d :: d in h[n] <==> Edge(h, n, d);
    }
  }

  /** The graph that is searched is the one declared in the file. */
  lemma GraphIsDeclared(raws: seq<RawRule>, rules: seq<ModuleRule>)
    requires RulesOfTables(rules, raws) && OneRulePerName(rules)
    ensures GraphOf(rules) == DeclaredGraph(raws)
  {
    NamesAreDeclared(raws, rules);
    forall a, b ensures Edge(GraphOf(rules), a, b) <==> Edge(DeclaredGraph(raws), a, b) {
      EdgesAreListed(raws, rules, a, b);
    }
    assert forall n :: n in GraphOf(rules).Keys <==> n in DeclaredGraph(raws).Keys;
    SameEdges(GraphOf(rules), DeclaredGraph(raws));
  }

  lemma ReferencesAreDeclared(raws: seq<RawRule>, rules: seq<ModuleRule>)
    requires RulesOfTables(rules, raws)
    ensures ReferencesSound(rules, Names(rules)) <==> ListsOthers(raws, |raws|)
  {
    NamesAreDeclared(raws, rules);
    if ListsOthers(raws, |raws|) {
      forall i | 0 <= i < |rules| ensures rules[i].mayImport <= Names(rules) && rules[i].name !in rules[i].mayImport {
        assert forall d :: d in rules[i].mayImport ==> d in raws[i].mayImport;
      }
    }
    if ReferencesSound(rules, Names(rules)) {
      forall i, d | 0 <= i < |raws| && d in raws[i].mayImport ensures Declared(raws, d) && d != raws[i].name {
        assert d in rules[i].mayImport;
      }
    }
  }

  lemma ClosedGraph(rules: seq<ModuleRule>, order: seq<string>)
    requires OneRulePerName(rules) && ReferencesSound(rules, Names(rules))
    requires |order| == |rules| && forall i :: 0 <= i < |rules| ==> order[i] == rules[i].name
    ensures Closed(GraphOf(rules)) && Distinct(order)
    ensures forall n :: n in order <==> n in GraphOf(rules)
  {
  }

  /** The first loop: fills `rules`, `paths` and `prefixes`, stopping at the first unusable table. */
  method LoadDeclarations(raws: seq<RawRule>) returns (r: Result<seq<ModuleRule>, PolicyError>)
    requires DistinctNames(raws)
    ensures r.Ok? <==> DeclarationsSound(raws)
    ensures r.Ok? ==> r.value == RulesOf(raws) && RulesOfTables(r.value, raws) && OneRulePerName(r.value)
    ensures r.Err? ==> exists i :: 0 <= i < |raws| && FirstFault(raws, i, r.error)
  {
    var rules: seq<ModuleRule> := [];
    var paths: set<Path> := {};
    var prefixes: set<string> := {};
    for i := 0 to |raws|
      invariant DeclarationsSound(raws[..i])
      invariant rules == RulesOf(raws[..i])
      invariant forall p :: p in paths <==> exists j :: 0 <= j < i && raws[j].path == Some(p)
      invariant forall p :: p in prefixes <==> exists j :: 0 <= j < i && raws[j].importPrefix == Some(p)
    {
      var raw := raws[i];
      assert raws[..i + 1] == raws[..i] + [raw];
      if raw.path.None? || raw.importPrefix.None? {
        assert FirstFault(raws, i, MissingKey(raw.name));
        return Err(MissingKey(raw.name));
      }
      var path, prefix := raw.path.value, raw.importPrefix.value;
      if path.absolute || ".." in path.parts {
        assert FirstFault(raws, i, UnsafePath(raw.name));
        return Err(UnsafePath(raw.name));
      }
      if path in paths {
        assert FirstFault(raws, i, DuplicatePath(path));
        return Err(DuplicatePath(path));
      }
      if prefix in prefixes {
        assert FirstFault(raws, i, DuplicatePrefix(prefix));
        return Err(DuplicatePrefix(prefix));
      }
      paths := paths + {path};
      prefixes := prefixes + {prefix};
      rules := rules + [RuleOf(raw)];
    }
    assert raws[..|raws|] == raws;
    RulesAreTables(raws);
    return Ok(rules);
  }

  /** The second loop: every reference is to another declared module. */
  method CheckReferences(ghost raws: seq<RawRule>, rules: seq<ModuleRule>) returns (r: Result<(), PolicyError>)
    requires DistinctNames(raws) && DeclarationsSound(raws) && RulesOfTables(rules, raws)
    ensures r.Ok? <==> ListsOthers(raws, |raws|)
    ensures r.Err? ==> exists i :: 0 <= i < |raws| && FirstFault(raws, i, r.error)
  {
    NamesAreDeclared(raws, rules);
    for i := 0 to |rules|
      invariant ListsOthers(raws, i)
    {
      var rule := rules[i];
      assert forall d :: d in rule.mayImport <==> d in raws[i].mayImport;
      var unknown := rule.mayImport - Names(rules);
      if unknown != {} {
        var d :| d in unknown;
        assert FirstFault(raws, i, UnknownModules(rule.name, unknown));
        return Err(UnknownModules(rule.name, unknown));
      }
      forall d | d in raws[i].mayImport ensures Declared(raws, d) {
        assert d !in unknown;
      }
      if rule.name in rule.mayImport {
        assert FirstFault(raws, i, SelfImport(rule.name));
        return Err(SelfImport(rule.name));
      }
    }
    return Ok(());
  }

  method Search(graph: Graph, order: seq<string>) returns (r: Result<(), seq<string>>)
    requires Closed(graph) && Distinct(order) && forall n :: n in order <==> n in graph
    ensures r.Ok? <==> Acyclic(graph)
    ensures r.Err? ==> CycleWitness(graph, r.error) && FirstOnCycle(graph, order, r.error[0])
  {
    var detector := new CycleDetector(graph);
    r := detector.DetectCycles(order);
  }

  /** The search, over the modules in the order of the file. */
  method CheckCycles(ghost raws: seq<RawRule>, rules: seq<ModuleRule>) returns (r: Result<(), PolicyError>)
    requires DistinctNames(raws) && DeclarationsSound(raws) && RulesOfTables(rules, raws) && OneRulePerName(rules)
    requires ListsOthers(raws, |raws|)
    ensures r.Ok? <==> Acyclic(DeclaredGraph(raws))
    ensures r.Err? ==> exists i :: 0 <= i < |raws| && FirstFault(raws, i, r.error)
  {
    var order := seq(|rules|, i requires 0 <= i < |rules| => rules[i].name);
    ReferencesAreDeclared(raws, rules);
    GraphIsDeclared(raws, rules);
    ClosedGraph(rules, order);
    var verdict := Search(GraphOf(rules), order);
    if verdict.Err? {
      ghost var i :| 0 <= i < |order| && order[i] == verdict.error[0]
                     && forall j :: 0 <= j < i ==> !LeadsToCycle(GraphOf(rules), order[j]);
      FirstCycle(raws, order, i, verdict.error);
      return Err(DependencyCycle(verdict.error));
    }
    return Ok(());
  }

  lemma FirstCycle(raws: seq<RawRule>, order: seq<string>, i: nat, chain: seq<string>)
    requires DistinctNames(raws) && DeclarationsSound(raws) && ListsOthers(raws, |raws|)
    requires |order| == |raws| && forall j :: 0 <= j < |raws| ==> order[j] == raws[j].name
    requires i < |order| && CycleWitness(DeclaredGraph(raws), chain) && chain[0] == order[i]
    requires forall j :: 0 <= j < i ==> !LeadsToCycle(DeclaredGraph(raws), order[j])
    ensures FirstFault(raws, i, DependencyCycle(chain))
  {
    assert forall j :: 0 <= j < i ==> order[j] == raws[j].name;
  }

  /** What the first loop tests, table by table, written out. */
  lemma SoundDeclarations(raws: seq<RawRule>)
    ensures DeclarationsSound(raws) <==>
            && (forall raw :: raw in raws ==> raw.path.Some? && raw.importPrefix.Some?)
            && (forall raw :: raw in raws ==> !raw.path.value.absolute && ".." !in raw.path.value.parts)
            && (forall i, j :: 0 <= i < j < |raws| ==>
                  raws[i].path != raws[j].path && raws[i].importPrefix != raws[j].importPrefix)
  {
    forall raw | raw in raws && DeclarationsSound(raws) ensures Complete(raw) && !Unsafe(raw.path.value) {
      var i :| 0 <= i < |raws| && raws[i] == raw;
    }
  }

  lemma PrefixesDistinct(raws: seq<RawRule>)
    requires DistinctNames(raws) && DeclarationsSound(raws)
    ensures DistinctPrefixes(RulesOf(raws))
  {
  }

  /** What an accepted file hands to the lookup and to the search. */
  lemma AcceptedRules(config: Config)
    requires Acceptable(config)
    ensures var raws := config.modules.value;
            var rules := RulesOf(raws);
            && RulesOfTables(rules, raws)
            && OneRulePerName(rules) && DistinctPrefixes(rules) && ReferencesSound(rules, Names(rules))
            && GraphOf(rules) == DeclaredGraph(raws) && Closed(GraphOf(rules)) && Acyclic(GraphOf(rules))
  {
    var raws := config.modules.value;
    var rules := RulesOf(raws);
    SoundDeclarations(raws);
    RulesAreTables(raws);
    PrefixesDistinct(raws);
    ReferencesAreDeclared(raws, rules);
    GraphIsDeclared(raws, rules);
    ClosedGraph(rules, seq(|rules|, i requires 0 <= i < |rules| => rules[i].name));
  }
}
