/** The import check over a source tree, and what an accepted tree looks like. */
module ImportChecking {
  import opened Wrappers
  import opened Ordering
  import opened ModuleGraph
  import opened ImportMatching
  import opened RuleLoading

  type FilePath = seq<string>

  /** A Python file is unreadable or unparsable, or yields the set of dotted names it imports. */
  datatype FileContent = Uninspectable(reason: string) | Imports(names: set<string>)

  /** All `*.py` files under the root, by the parts of their relative paths. */
  type Tree = map<FilePath, FileContent>

  datatype Violation =
    | CannotInspect(source: string, file: FilePath, reason: string)
    | Forbidden(source: string, file: FilePath, target: string, imported: string)

  /** The recursive listing of a module's directory finds the files strictly below its path. */
  predicate Under(rule: ModuleRule, file: FilePath) {
    rule.path.parts < file
  }

  /** The file matters to the rule and names a module other than the rule's own. */
  predicate ImportsAcross(rule: ModuleRule, content: FileContent, rules: seq<ModuleRule>, imported: string,
                          target: string) {
    content.Imports? && imported in content.names && MatchModule(imported, rules) == Some(target) && target != rule.name
  }

  predicate IsFileViolation(rule: ModuleRule, file: FilePath, content: FileContent, rules: seq<ModuleRule>,
                            v: Violation) {
    && v.source == rule.name && v.file == file
    && match v
       case CannotInspect(_, _, reason) => content == Uninspectable(reason)
       case Forbidden(_, _, target, imported) =>
         ImportsAcross(rule, content, rules, imported, target) && target !in rule.mayImport
  }

  predicate IsModuleViolation(rule: ModuleRule, rules: seq<ModuleRule>, tree: Tree, v: Violation) {
    v.file in tree && Under(rule, v.file) && IsFileViolation(rule, v.file, tree[v.file], rules, v)
  }

  /** `v` is a fault of `tree` under `rules`. */
  ghost predicate IsViolation(rules: seq<ModuleRule>, tree: Tree, v: Violation) {
    exists rule :: rule in rules && IsModuleViolation(rule, rules, tree, v)
  }

  /** The content imports a name that `owner` owns. */
  ghost predicate ImportsOwned(owner: ModuleRule, rules: seq<ModuleRule>, content: FileContent, imported: string) {
    content.Imports? && imported in content.names && Owns(owner, imported, rules)
  }

  /** A file strictly below the directory of the rule imports a name that `owner` owns. */
  ghost predicate ImportsFrom(rule: ModuleRule, owner: ModuleRule, rules: seq<ModuleRule>, tree: Tree, file: FilePath,
                              imported: string) {
    rule in rules && file in tree && rule.path.parts < file && ImportsOwned(owner, rules, tree[file], imported)
  }

  /** An entry about a forbidden import is right for the content of one file of the rule. */
  ghost predicate IsForbidden(rule: ModuleRule, rules: seq<ModuleRule>, content: FileContent, v: Violation)
    requires v.Forbidden?
  {
    && v.source == rule.name && v.target != rule.name && v.target !in rule.mayImport
    && exists owner :: ImportsOwned(owner, rules, content, v.imported) && owner.name == v.target
  }

  lemma FileViolationIsForbidden(rule: ModuleRule, file: FilePath, content: FileContent, rules: seq<ModuleRule>,
                                 v: Violation)
    requires DistinctPrefixes(rules) && v.Forbidden?
    ensures IsFileViolation(rule, file, content, rules, v) <==> v.file == file && IsForbidden(rule, rules, content, v)
  {
    MatchModuleIsExact(v.imported, rules);
    if owner :| Owns(owner, v.imported, rules) && owner.name == v.target && content.Imports?
                && v.imported in content.names {
      assert ImportsOwned(owner, rules, content, v.imported);
    }
  }

  /** What the checker is to report, said without the lookup: unreadable files, and names of modules not permitted. */
  ghost predicate IsFault(rules: seq<ModuleRule>, tree: Tree, v: Violation) {
    match v
    case CannotInspect(source, file, reason) =>
      exists rule :: rule in rules && rule.name == source && file in tree && rule.path.parts < file
                     && tree[file] == Uninspectable(reason)
    case Forbidden(source, file, target, imported) =>
      exists rule, owner :: ImportsFrom(rule, owner, rules, tree, file, imported)
                            && rule.name == source && owner.name == target
                            && target != source && target !in rule.mayImport
  }

  lemma ViolationIsFault(rules: seq<ModuleRule>, tree: Tree, v: Violation)
    requires DistinctPrefixes(rules)
    ensures IsViolation(rules, tree, v) <==> IsFault(rules, tree, v)
  {
    if v.Forbidden? {
      MatchModuleIsExact(v.imported, rules);
      if rule :| rule in rules && IsModuleViolation(rule, rules, tree, v) {
        var owner :| Owns(owner, v.imported, rules) && owner.name == v.target;
        assert ImportsFrom(rule, owner, rules, tree, v.file, v.imported);
      }
      if rule, owner :| ImportsFrom(rule, owner, rules, tree, v.file, v.imported)
                        && rule.name == v.source && owner.name == v.target
                        && v.target != v.source && v.target !in rule.mayImport {
        assert IsModuleViolation(rule, rules, tree, v);
      }
    } else {
      if rule :| rule in rules && rule.name == v.source && v.file in tree && rule.path.parts < v.file
                 && tree[v.file] == Uninspectable(v.reason) {
        assert IsModuleViolation(rule, rules, tree, v);
      }
    }
  }

  /** The position of the rule named `source`. */
  function Position(rules: seq<ModuleRule>, source: string): nat {
    if rules == [] || rules[0].name == source then 0 else 1 + Position(rules[1..], source)
  }

  /** Rules order, then path order, then name order. */
  predicate Before(rules: seq<ModuleRule>, v: Violation, w: Violation) {
    var i, j := Position(rules, v.source), Position(rules, w.source);
    || i < j
    || (i == j && PathLess(v.file, w.file))
    || (i == j && v.file == w.file && v.Forbidden? && w.Forbidden? && StringLess(v.imported, w.imported))
  }

  /** The entries come strictly in order, so none is repeated. */
  ghost predicate InOrder(rules: seq<ModuleRule>, violations: seq<Violation>) {
    forall i, j :: 0 <= i < j < |violations| ==> Before(rules, violations[i], violations[j])
  }

  lemma {:induction false} PositionOf(rules: seq<ModuleRule>, i: nat)
    requires OneRulePerName(rules) && i < |rules|
    ensures Position(rules, rules[i].name) == i
  {
    if i == 0 {
    } else {
      assert rules[1..][i - 1] == rules[i];
      PositionOf(rules[1..], i - 1);
    }
  }

  lemma AppendInOrder(rules: seq<ModuleRule>, a: seq<Violation>, b: seq<Violation>)
    requires InOrder(rules, a) && InOrder(rules, b)
    requires forall v, w :: v in a && w in b ==> Before(rules, v, w)
    ensures InOrder(rules, a + b)
  {
  }

  method CheckFile(rule: ModuleRule, file: FilePath, content: FileContent, rules: seq<ModuleRule>)
    returns (violations: seq<Violation>)
    ensures InOrder(rules, violations)
    ensures forall v :: v in violations <==> IsFileViolation(rule, file, content, rules, v)
    ensures DistinctPrefixes(rules) ==>
              forall v: Violation :: v.Forbidden? ==>
                (v in violations <==> v.file == file && IsForbidden(rule, rules, content, v))
  {
    forall v: Violation | DistinctPrefixes(rules) && v.Forbidden?
      ensures IsFileViolation(rule, file, content, rules, v) <==> v.file == file && IsForbidden(rule, rules, content, v)
    {
      FileViolationIsForbidden(rule, file, content, rules, v);
    }
    if content.Uninspectable? {
      violations := [CannotInspect(rule.name, file, content.reason)];
      return;
    }
    var names := SortNames(content.names);
    violations := [];
    for i := 0 to |names|
      invariant InOrder(rules, violations)
      invariant forall v :: v in violations <==>
                            IsFileViolation(rule, file, content, rules, v) && v.Forbidden? && v.imported in names[..i]
    {
      var imported := names[i];
      assert names[..i + 1] == names[..i] + [imported];
      match MatchModule(imported, rules) {
        case None =>
        case Some(target) =>
          if target != rule.name && target !in rule.mayImport {
            var entry := Forbidden(rule.name, file, target, imported);
            assert imported in names;
            AppendInOrder(rules, violations, [entry]);
            violations := violations + [entry];
          }
      }
    }
    assert names[..|names|] == names;
  }

  method CheckModule(rule: ModuleRule, rules: seq<ModuleRule>, tree: Tree) returns (violations: seq<Violation>)
    ensures InOrder(rules, violations)
    ensures forall v :: v in violations <==> IsModuleViolation(rule, rules, tree, v)
    ensures DistinctPrefixes(rules) ==>
              forall v: Violation :: v.Forbidden? ==>
                            (v in violations <==> && v.file in tree && rule.path.parts < v.file
                                                  && IsForbidden(rule, rules, tree[v.file], v))
  {
    forall v: Violation | DistinctPrefixes(rules) && v.Forbidden? && v.file in tree
      ensures IsFileViolation(rule, v.file, tree[v.file], rules, v) <==> IsForbidden(rule, rules, tree[v.file], v)
    {
      FileViolationIsForbidden(rule, v.file, tree[v.file], rules, v);
    }
    var listing := set file | file in tree && Under(rule, file);
    var files := SortPaths(listing);
    violations := [];
    for i := 0 to |files|
      invariant InOrder(rules, violations)
      invariant forall v :: v in violations <==> IsModuleViolation(rule, rules, tree, v) && v.file in files[..i]
    {
      var file := files[i];
      assert files[..i + 1] == files[..i] + [file];
      assert file in files;
      var found := CheckFile(rule, file, tree[file], rules);
      AppendInOrder(rules, violations, found);
      violations := violations + found;
    }
    assert files[..|files|] == files;
  }

  /** Exact: one entry for each fault and nothing else, in rules order, then path order, then name order. */
  method CheckImports(rules: seq<ModuleRule>, tree: Tree) returns (violations: seq<Violation>)
    requires OneRulePerName(rules)
    ensures InOrder(rules, violations)
    ensures forall v :: v in violations <==> IsViolation(rules, tree, v)
    ensures DistinctPrefixes(rules) ==> forall v :: v in violations <==> IsFault(rules, tree, v)
  {
    forall v | DistinctPrefixes(rules) ensures IsViolation(rules, tree, v) <==> IsFault(rules, tree, v) {
      ViolationIsFault(rules, tree, v);
    }
    violations := [];
    for i := 0 to |rules|
      invariant InOrder(rules, violations)
      invariant forall v :: v in violations <==> exists j :: 0 <= j < i && IsModuleViolation(rules[j], rules, tree, v)
    {
      var found := CheckModule(rules[i], rules, tree);
      forall v, w | v in violations && w in found ensures Before(rules, v, w) {
        var j :| 0 <= j < i && IsModuleViolation(rules[j], rules, tree, v);
        PositionOf(rules, j);
        PositionOf(rules, i);
      }
      AppendInOrder(rules, violations, found);
      violations := violations + found;
    }
  }

  /** Being in order and exact leaves only one possible list. */
  lemma {:induction false} ReportIsUnique(rules: seq<ModuleRule>, p: seq<Violation>, q: seq<Violation>)
    requires InOrder(rules, p) && InOrder(rules, q)
    requires forall v :: v in p <==> v in q
    ensures p == q
    decreases |p|
  {
    StringOrder();
    PathOrder();
    assert q != [] ==> q[0] in p;
    if p == [] {
    } else {
      assert p[0] in q && q[0] in p;
      assert p[0] == q[0];
      forall v ensures v in p[1..] <==> v in q[1..] {
        assert v in p <==> v == p[0] || v in p[1..];
        assert v in q <==> v == q[0] || v in q[1..];
      }
      ReportIsUnique(rules, p[1..], q[1..]);
      assert p == [p[0]] + p[1..] && q == [q[0]] + q[1..];
    }
  }

  /** The imports that really cross from one module into another. */
  ghost function ImportGraph(rules: seq<ModuleRule>, tree: Tree): Graph
    requires OneRulePerName(rules)
  {
    map rule | rule in rules :: rule.name := ImportTargets(rule, rules, tree)
  }

  ghost function ImportTargets(rule: ModuleRule, rules: seq<ModuleRule>, tree: Tree): set<string> {
    set target | target in Names(rules) && CrossImport(rule, rules, tree, target)
  }

  ghost predicate CrossImport(rule: ModuleRule, rules: seq<ModuleRule>, tree: Tree, target: string) {
    exists owner, file, imported ::
      ImportsFrom(rule, owner, rules, tree, file, imported) && owner.name == target && target != rule.name
  }

  lemma CrossingIsEdge(rule: ModuleRule, owner: ModuleRule, rules: seq<ModuleRule>, tree: Tree, file: FilePath,
                       imported: string)
    requires OneRulePerName(rules) && rule.name != owner.name
    requires ImportsFrom(rule, owner, rules, tree, file, imported)
    ensures Edge(ImportGraph(rules, tree), rule.name, owner.name)
  {
    assert CrossImport(rule, rules, tree, owner.name) && owner in rules;
    assert owner.name in ImportTargets(rule, rules, tree);
  }

  /** The edges of the real graph, written out: some file of `a` imports a name that belongs to another module `b`. */
  lemma ImportGraphEdges(rules: seq<ModuleRule>, tree: Tree, a: string, b: string)
    requires OneRulePerName(rules)
    ensures Edge(ImportGraph(rules, tree), a, b) <==>
            exists rule, owner, file, imported ::
              ImportsFrom(rule, owner, rules, tree, file, imported) && rule.name == a && owner.name == b && a != b
  {
    forall rule, owner, file, imported | ImportsFrom(rule, owner, rules, tree, file, imported) && rule.name == a
                                         && owner.name == b && a != b
      ensures Edge(ImportGraph(rules, tree), a, b)
    {
      CrossingIsEdge(rule, owner, rules, tree, file, imported);
    }
    if Edge(ImportGraph(rules, tree), a, b) {
      var rule :| rule in rules && rule.name == a;
      assert b in ImportTargets(rule, rules, tree);
      assert CrossImport(rule, rules, tree, b);
    }
  }

  ghost predicate AllInspectable(rules: seq<ModuleRule>, tree: Tree) {
    forall rule, file :: rule in rules && file in tree && rule.path.parts < file ==> tree[file].Imports?
  }

  lemma UnpermittedEdgeIsFault(rules: seq<ModuleRule>, tree: Tree, a: string, b: string) returns (v: Violation)
    requires OneRulePerName(rules) && Edge(ImportGraph(rules, tree), a, b) && !Edge(GraphOf(rules), a, b)
    ensures IsFault(rules, tree, v)
  {
    ImportGraphEdges(rules, tree, a, b);
    var rule, owner, file, imported :|
      ImportsFrom(rule, owner, rules, tree, file, imported) && rule.name == a && owner.name == b && a != b;
    v := Forbidden(a, file, b, imported);
  }

  /** A fault is a file that was not read, or an edge that is not permitted. */
  lemma FaultIsUnpermitted(rules: seq<ModuleRule>, tree: Tree, v: Violation)
    requires OneRulePerName(rules) && IsFault(rules, tree, v)
    ensures v.CannotInspect? ==> !AllInspectable(rules, tree)
    ensures v.Forbidden? ==>
              Edge(ImportGraph(rules, tree), v.source, v.target) && !Edge(GraphOf(rules), v.source, v.target)
  {
    if v.Forbidden? {
      var rule, owner :| ImportsFrom(rule, owner, rules, tree, v.file, v.imported)
                         && rule.name == v.source && owner.name == v.target
                         && v.target != v.source && v.target !in rule.mayImport;
      CrossingIsEdge(rule, owner, rules, tree, v.file, v.imported);
    }
  }

  /** Without a fault: every file was read, and every crossing import is a permitted edge; and conversely. */
  lemma CleanMeansPermitted(rules: seq<ModuleRule>, tree: Tree)
    requires OneRulePerName(rules)
    ensures (forall v :: !IsFault(rules, tree, v)) <==>
            AllInspectable(rules, tree) &&
            forall a, b :: Edge(ImportGraph(rules, tree), a, b) ==> Edge(GraphOf(rules), a, b)
  {
    forall rule, file | rule in rules && file in tree && rule.path.parts < file && tree[file].Uninspectable?
      ensures IsFault(rules, tree, CannotInspect(rule.name, file, tree[file].reason))
    {
    }
    forall a, b | Edge(ImportGraph(rules, tree), a, b) && !Edge(GraphOf(rules), a, b)
      ensures exists v :: IsFault(rules, tree, v)
    {
      var v := UnpermittedEdgeIsFault(rules, tree, a, b);
    }
    forall v | IsFault(rules, tree, v)
      ensures !AllInspectable(rules, tree) ||
              (Edge(ImportGraph(rules, tree), v.source, v.target) && !Edge(GraphOf(rules), v.source, v.target))
    {
      FaultIsUnpermitted(rules, tree, v);
    }
  }

  /**
   * The point of the checker: in a tree that passes, the real imports between modules form no cycle,
   * and a chain of them never leaves what the declared dependencies allow.
   */
  lemma PassingTreeIsLayered(config: Config, tree: Tree)
    requires Acceptable(config)
    requires forall v :: !IsFault(RulesOf(config.modules.value), tree, v)
    ensures var rules := RulesOf(config.modules.value);
            && OneRulePerName(rules)
            && Acyclic(ImportGraph(rules, tree))
            && forall p :: Walk(ImportGraph(rules, tree), p) && |p| > 1 ==> Reaches(GraphOf(rules), p[0], p[|p| - 1])
  {
    AcceptedRules(config);
    var rules := RulesOf(config.modules.value);
    CleanMeansPermitted(rules, tree);
    var actual, allowed := ImportGraph(rules, tree), GraphOf(rules);
    SubgraphAcyclic(actual, allowed);
    forall p | Walk(actual, p) && |p| > 1 ensures Reaches(allowed, p[0], p[|p| - 1]) {
      SubgraphWalks(actual, allowed, p);
    }
  }

  /**
   * The exit code of the script: 2 for a bad policy, or when listing a module's files raises an operating-system
   * or value error, which leaves no tree; 1 for violations, 0 for a layered tree.
   */
  method CheckArchitecture(config: Config, walked: Option<Tree>) returns (code: int)
    requires config.modules.Some? ==> DistinctNames(config.modules.value)
    ensures code == 2 <==> !Acceptable(config) || walked.None?
    ensures code == 1 <==> && Acceptable(config) && walked.Some?
                           && exists v :: IsFault(RulesOf(config.modules.value), walked.value, v)
    ensures code == 0 ==> Acceptable(config) && walked.Some?
    ensures code == 0 ==> var rules := RulesOf(config.modules.value);
                          && OneRulePerName(rules)
                          && AllInspectable(rules, walked.value) && Acyclic(ImportGraph(rules, walked.value))
    ensures code in {0, 1, 2}
  {
    var loaded := LoadRules(config);
    if loaded.Err? || walked.None? {
      return 2;
    }
    var tree := walked.value;
    AcceptedRules(config);
    var violations := CheckImports(loaded.value, tree);
    if violations != [] {
      assert violations[0] in violations;
      return 1;
    }
    assert forall v :: IsFault(loaded.value, tree, v) ==> v in violations;
    CleanMeansPermitted(loaded.value, tree);
    PassingTreeIsLayered(config, tree);
    return 0;
  }
}
