/** Which declared module an imported dotted name belongs to. */
module ImportMatching {
  import opened Wrappers
  import opened Strings

  /** A relative or absolute path as its list of parts. */
  datatype Path = Path(absolute: bool, parts: seq<string>)

  datatype ModuleRule = ModuleRule(name: string, path: Path, importPrefix: string, mayImport: set<string>)

  function Components(dotted: string): seq<string> {
    Split(dotted, '.')
  }

  /** The character test: the prefix itself, or a name that continues it after a dot. */
  predicate Covers(rule: ModuleRule, importName: string) {
    importName == rule.importPrefix || rule.importPrefix + "." <= importName
  }

  function Matching(importName: string, rules: seq<ModuleRule>): seq<ModuleRule> {
    if rules == [] then []
    else (if Covers(rules[0], importName) then [rules[0]] else []) + Matching(importName, rules[1..])
  }

  /** Python's `max` by prefix length: the first among the longest. */
  function Longest(rules: seq<ModuleRule>): ModuleRule
    requires rules != []
  {
    if |rules| == 1 then rules[0]
    else
      var best := Longest(rules[..|rules| - 1]);
      if |rules[|rules| - 1].importPrefix| > |best.importPrefix| then rules[|rules| - 1] else best
  }

  function MatchRule(importName: string, rules: seq<ModuleRule>): Option<ModuleRule> {
    var matches := Matching(importName, rules);
    if matches == [] then None else Some(Longest(matches))
  }

  function MatchModule(importName: string, rules: seq<ModuleRule>): Option<string> {
    match MatchRule(importName, rules)
    case None => None
    case Some(rule) => Some(rule.name)
  }

  /** The guarantee of the rule loader: no two rules share an import prefix. */
  ghost predicate DistinctPrefixes(rules: seq<ModuleRule>) {
    forall p, q :: p in rules && q in rules && p.importPrefix == q.importPrefix ==> p == q
  }

  /** `rule` owns `importName`: it covers it, and every other covering rule is for an enclosing package. */
  ghost predicate Owns(rule: ModuleRule, importName: string, rules: seq<ModuleRule>) {
    && rule in rules
    && Components(rule.importPrefix) <= Components(importName)
    && forall other :: other in rules && Components(other.importPrefix) <= Components(importName) ==>
                         Components(other.importPrefix) <= Components(rule.importPrefix)
  }

  lemma {:induction false} SingleComponent(s: string)
    ensures Components(s)[0] == "" <==> s == "" || s[0] == '.'
    ensures Components(s) == [""] <==> s == ""
  {
  }

  /** The character test says exactly that the components of the prefix start the components of the name. */
  lemma {:induction false} DottedPrefix(prefix: string, name: string)
    ensures (name == prefix || prefix + "." <= name) <==> Components(prefix) <= Components(name)
  {
    SingleComponent(prefix);
    SingleComponent(name);
    if prefix == "" {
      assert Components(prefix) <= Components(name) <==> Components(name)[0] == "";
    } else if name == "" {
      assert |Components(prefix)| <= 1 ==> Components(prefix) == [Components(prefix)[0]];
    } else if prefix[0] != name[0] {
      assert !(prefix + "." <= name) by {
        assert (prefix + ".")[0] == prefix[0];
      }
      assert prefix[0] != '.' ==> Components(prefix)[0][0] == prefix[0];
      assert name[0] != '.' ==> Components(name)[0][0] == name[0];
    } else {
      DottedPrefix(prefix[1..], name[1..]);
      assert (prefix + ".")[1..] == prefix[1..] + ".";
      assert prefix + "." <= name <==> prefix[1..] + "." <= name[1..];
      assert name == prefix <==> name[1..] == prefix[1..] by {
        assert name == [name[0]] + name[1..] && prefix == [prefix[0]] + prefix[1..];
      }
      PrefixStep(prefix, name);
    }
  }

  lemma ConsPrefix<T>(x: T, a: seq<T>, y: T, b: seq<T>)
    ensures [x] + a <= [y] + b <==> x == y && a <= b
  {
    var p, q := [x] + a, [y] + b;
    if p <= q {
      assert p[0] == q[0];
      forall i | 0 <= i < |a| ensures a[i] == b[i] {
        assert p[i + 1] == q[i + 1];
      }
    }
  }

  lemma PrefixStep(prefix: string, name: string)
    requires prefix != "" && name != "" && prefix[0] == name[0]
    ensures Components(prefix) <= Components(name) <==> Components(prefix[1..]) <= Components(name[1..])
  {
    var p, n := Components(prefix[1..]), Components(name[1..]);
    if prefix[0] == '.' {
      ConsPrefix("", p, "", n);
    } else {
      var c := prefix[0];
      assert p == [p[0]] + p[1..] && n == [n[0]] + n[1..];
      assert [c] + p[0] == [c] + n[0] <==> p[0] == n[0] by {
        assert ([c] + p[0])[1..] == p[0] && ([c] + n[0])[1..] == n[0];
      }
      ConsPrefix([c] + p[0], p[1..], [c] + n[0], n[1..]);
      ConsPrefix(p[0], p[1..], n[0], n[1..]);
    }
  }

  lemma {:induction false} MatchingIsExact(importName: string, rules: seq<ModuleRule>, rule: ModuleRule)
    ensures rule in Matching(importName, rules) <==> rule in rules && Covers(rule, importName)
  {
    if rules == [] {
    } else {
      MatchingIsExact(importName, rules[1..], rule);
      assert rules == [rules[0]] + rules[1..];
    }
  }

  lemma {:induction false} LongestIsLongest(rules: seq<ModuleRule>)
    requires rules != []
    ensures Longest(rules) in rules
    ensures forall r :: r in rules ==> |r.importPrefix| <= |Longest(rules).importPrefix|
  {
    if |rules| == 1 {
    } else {
      var front := rules[..|rules| - 1];
      LongestIsLongest(front);
      assert rules == front + [rules[|rules| - 1]];
    }
  }

  /** Of two rules covering one name, the shorter prefix encloses the longer one. */
  lemma CoveringRulesNest(p: ModuleRule, q: ModuleRule, importName: string)
    requires Covers(p, importName) && Covers(q, importName) && |p.importPrefix| <= |q.importPrefix|
    ensures Components(p.importPrefix) <= Components(q.importPrefix)
  {
    if |p.importPrefix| < |q.importPrefix| {
      assert (p.importPrefix + ".") <= q.importPrefix;
    } else {
      assert p.importPrefix == importName[..|p.importPrefix|] == q.importPrefix;
    }
    DottedPrefix(p.importPrefix, q.importPrefix);
  }

  lemma NestedIsShorter(p: ModuleRule, q: ModuleRule)
    requires Components(p.importPrefix) <= Components(q.importPrefix)
    ensures |p.importPrefix| <= |q.importPrefix|
    ensures |p.importPrefix| == |q.importPrefix| ==> p.importPrefix == q.importPrefix
  {
    DottedPrefix(p.importPrefix, q.importPrefix);
  }

  /** The lookup finds the innermost package that encloses the name, and only that one. */
  lemma MatchRuleIsExact(importName: string, rules: seq<ModuleRule>, rule: ModuleRule)
    requires DistinctPrefixes(rules)
    ensures MatchRule(importName, rules) == Some(rule) <==> Owns(rule, importName, rules)
  {
    var matches := Matching(importName, rules);
    forall r ensures r in matches <==> r in rules && Components(r.importPrefix) <= Components(importName) {
      MatchingIsExact(importName, rules, r);
      DottedPrefix(r.importPrefix, importName);
    }
    if matches != [] {
      LongestIsLongest(matches);
      var best := Longest(matches);
      forall other | other in matches ensures Components(other.importPrefix) <= Components(best.importPrefix) {
        MatchingIsExact(importName, rules, other);
        MatchingIsExact(importName, rules, best);
        CoveringRulesNest(other, best, importName);
      }
      assert Owns(best, importName, rules);
      if Owns(rule, importName, rules) {
        NestedIsShorter(best, rule);
        NestedIsShorter(rule, best);
      }
    }
  }

  lemma NoMatchMeansNoOwner(importName: string, rules: seq<ModuleRule>)
    requires DistinctPrefixes(rules)
    ensures MatchRule(importName, rules) == None <==>
            forall rule :: rule in rules ==> !(Components(rule.importPrefix) <= Components(importName))
  {
    forall rule | rule in rules
      ensures Components(rule.importPrefix) <= Components(importName) ==> rule in Matching(importName, rules)
    {
      MatchingIsExact(importName, rules, rule);
      DottedPrefix(rule.importPrefix, importName);
    }
    match MatchRule(importName, rules) {
      case None =>
      case Some(rule) => MatchRuleIsExact(importName, rules, rule);
    }
  }

  /** The name that the lookup returns is that of the owner, and there is none exactly when no package encloses it. */
  lemma MatchModuleIsExact(importName: string, rules: seq<ModuleRule>)
    requires DistinctPrefixes(rules)
    ensures forall m :: MatchModule(importName, rules) == Some(m) <==>
                        exists rule :: Owns(rule, importName, rules) && rule.name == m
    ensures MatchModule(importName, rules) == None <==>
            forall rule :: rule in rules ==> !(Components(rule.importPrefix) <= Components(importName))
    ensures forall p, q :: Owns(p, importName, rules) && Owns(q, importName, rules) ==> p == q
  {
    NoMatchMeansNoOwner(importName, rules);
    forall rule ensures MatchRule(importName, rules) == Some(rule) <==> Owns(rule, importName, rules) {
      MatchRuleIsExact(importName, rules, rule);
    }
  }

  /** Storing the same rules in another order does not change any lookup. */
  lemma MatchIgnoresOrder(importName: string, rules: seq<ModuleRule>, reordered: seq<ModuleRule>)
    requires DistinctPrefixes(rules)
    requires forall rule :: rule in rules <==> rule in reordered
    ensures MatchModule(importName, rules) == MatchModule(importName, reordered)
  {
    NoMatchMeansNoOwner(importName, rules);
    NoMatchMeansNoOwner(importName, reordered);
    match MatchRule(importName, rules) {
      case None =>
      case Some(rule) =>
        MatchRuleIsExact(importName, rules, rule);
        MatchRuleIsExact(importName, reordered, rule);
    }
  }
}
