/** Path ownership by longest prefix, the check that makes it unambiguous, and the owner of a module. */
module Ownership {
  import opened Common

  datatype Rule = Rule(prefix: string, owner: string)

  // ------------------------------------------------------------------- find_owner

  /** The best rule met so far: a longer prefix than before is needed to replace it, so among equally
      long ones the first wins and the empty prefix never does. */
  function BestRule(path: string, rules: seq<Rule>): Option<Rule> {
    if rules == [] then None
    else
      var rule, best := rules[|rules| - 1], BestRule(path, rules[..|rules| - 1]);
      if rule.prefix <= path && |rule.prefix| > (if best.Some? then |best.value.prefix| else 0)
      then Some(rule) else best
  }

  function OwnerOf(path: string, rules: seq<Rule>): Option<string> {
    var best := BestRule(path, rules);
    if best.Some? then Some(best.value.owner) else None
  }

  method FindOwner(path: string, rules: seq<Rule>) returns (bestOwner: Option<string>)
    ensures bestOwner == OwnerOf(path, rules)
  {
    var bestPrefix := "";
    bestOwner := None;
    for i := 0 to |rules|
      invariant var best := BestRule(path, rules[..i]);
        if best.Some? then bestPrefix == best.value.prefix && bestOwner == Some(best.value.owner)
        else bestPrefix == "" && bestOwner == None
    {
      assert rules[..i + 1][..i] == rules[..i];
      if rules[i].prefix <= path && |rules[i].prefix| > |bestPrefix| {
        bestPrefix, bestOwner := rules[i].prefix, Some(rules[i].owner);
      }
    }
    assert rules[..|rules|] == rules;
  }

  predicate Matches(path: string, rule: Rule) { rule.prefix != "" && rule.prefix <= path }

  /** The rule chosen is the first of the longest that match, and there is none only if nothing matches. */
  lemma {:induction false} BestIsFirstLongest(path: string, rules: seq<Rule>)
    ensures match BestRule(path, rules)
      case None => forall rule :: rule in rules ==> !Matches(path, rule)
      case Some(best) =>
        && Matches(path, best)
        && exists k :: IsFirstLongest(path, rules, best, k)
  {
    if rules != [] {
      var n := |rules| - 1;
      var init := rules[..n];
      BestIsFirstLongest(path, init);
      assert rules == init + [rules[n]];
      if BestRule(path, rules) == BestRule(path, init) && BestRule(path, init).Some? {
        var best := BestRule(path, init).value;
        var k :| IsFirstLongest(path, init, best, k);
        assert IsFirstLongest(path, rules, best, k);
      } else if BestRule(path, rules).Some? {
        assert IsFirstLongest(path, rules, rules[n], n);
      }
    }
  }

  ghost predicate IsFirstLongest(path: string, rules: seq<Rule>, best: Rule, k: int) {
    && 0 <= k < |rules| && rules[k] == best
    && (forall j :: 0 <= j < |rules| && Matches(path, rules[j]) ==> |rules[j].prefix| <= |best.prefix|)
    && (forall j :: 0 <= j < k && Matches(path, rules[j]) ==> |rules[j].prefix| < |best.prefix|)
  }

  // ------------------------------------------------------------ the conflict check

  ghost predicate Unambiguous(rules: seq<Rule>) {
    forall a, b :: a in rules && b in rules && a.prefix == b.prefix ==> a.owner == b.owner
  }

  /** Loading accepts the rules exactly when no prefix is given two owners. */
  method CheckConflicts(rules: seq<Rule>) returns (r: Result<seq<Rule>, string>)
    ensures r.Ok? <==> Unambiguous(rules)
    ensures r.Ok? ==> r.value == rules
    ensures r.Err? ==> exists a, b :: a in rules && b in rules && a.prefix == b.prefix == r.error && a.owner != b.owner
  {
    var seen: map<string, string> := map[];
    for i := 0 to |rules|
      invariant forall j :: 0 <= j < i ==> rules[j].prefix in seen && seen[rules[j].prefix] == rules[j].owner
      invariant forall prefix :: prefix in seen ==> Rule(prefix, seen[prefix]) in rules
    {
      var rule := rules[i];
      if rule.prefix in seen && seen[rule.prefix] != rule.owner {
        var other := Rule(rule.prefix, seen[rule.prefix]);
        assert other in rules && rule in rules;
        return Err(rule.prefix);
      }
      assert rule == Rule(rule.prefix, rule.owner);
      seen := seen[rule.prefix := rule.owner];
    }
    forall a, b | a in rules && b in rules && a.prefix == b.prefix ensures a.owner == b.owner {
      var j :| 0 <= j < |rules| && rules[j] == a;
      var k :| 0 <= k < |rules| && rules[k] == b;
    }
    r := Ok(rules);
  }

  lemma EqualLengthPrefixes(path: string, a: string, b: string)
    requires a <= path && b <= path && |a| == |b|
    ensures a == b
  {
    assert a == path[..|a|] && b == path[..|b|];
  }

  /** Once loaded, the order of the rules and repeated rules do not matter: any two lists with the same
      members give every path the same owner. */
  lemma OwnerIgnoresOrder(path: string, a: seq<Rule>, b: seq<Rule>)
    requires Unambiguous(a) && forall rule :: rule in a <==> rule in b
    ensures OwnerOf(path, a) == OwnerOf(path, b)
  {
    BestIsFirstLongest(path, a);
    BestIsFirstLongest(path, b);
    var x, y := BestRule(path, a), BestRule(path, b);
    assert x.Some? ==> x.value in a;
    assert y.Some? ==> y.value in b;
    if x.Some? && y.Some? {
      EqualLengthPrefixes(path, x.value.prefix, y.value.prefix);
    }
  }

  /** Without the check the order can decide. */
  lemma OrderDecidesAmbiguity(path: string, prefix: string, x: string, y: string)
    requires prefix != "" && prefix <= path && x != y
    ensures var a, b := Rule(prefix, x), Rule(prefix, y);
      OwnerOf(path, [a, b]) == Some(x) && OwnerOf(path, [b, a]) == Some(y)
  {
    var a, b := Rule(prefix, x), Rule(prefix, y);
    assert [a, b][..1] == [a] && [b, a][..1] == [b] && [a][..0] == [] && [b][..0] == [];
    assert BestRule(path, [a]) == Some(a) && BestRule(path, [b]) == Some(b);
  }

  // ---------------------------------------------------------------- module owners

  /** `src/` followed by the first k parts of a dotted module name, each closed by a slash. */
  function PathPrefix(parts: seq<string>, k: nat): string
    requires k <= |parts|
  {
    if k == 0 then "src/" else PathPrefix(parts, k - 1) + parts[k - 1] + "/"
  }

  /** The parts with slashes between them. */
  ghost function Join(parts: seq<string>): string {
    if parts == [] then "" else if |parts| == 1 then parts[0] else Join(parts[..|parts| - 1]) + "/" + parts[|parts| - 1]
  }

  /** The path of a module's first k parts is `src/`, the parts with slashes between them, and a slash. */
  lemma {:induction false} PathPrefixExactly(parts: seq<string>, k: nat)
    requires 0 < k <= |parts|
    ensures PathPrefix(parts, k) == "src/" + Join(parts[..k]) + "/"
  {
    if k == 1 {
      assert PathPrefix(parts, 1) == PathPrefix(parts, 0) + parts[0] + "/";
      assert parts[..1] == [parts[0]];
    } else {
      PathPrefixExactly(parts, k - 1);
      assert parts[..k][..k - 1] == parts[..k - 1] && parts[..k][k - 1] == parts[k - 1];
      assert Join(parts[..k]) == Join(parts[..k - 1]) + "/" + parts[k - 1];
    }
  }

  /** Candidate paths from the most to the least specific, down to the first part. */
  function PathPrefixes(parts: seq<string>, k: nat): seq<string>
    requires k <= |parts|
  {
    if k == 0 then [] else [PathPrefix(parts, k)] + PathPrefixes(parts, k - 1)
  }

  method ModuleOwner(parts: seq<string>, rules: seq<Rule>) returns (owner: Option<string>)
    requires parts != []
    ensures owner == OwnerOf(PathPrefix(parts, |parts|), rules)
  {
    var paths := PathPrefixes(parts, |parts|);
    PathsShrink(parts, |parts|);
    for i := 0 to |paths|
      invariant i > 0 ==> OwnerOf(PathPrefix(parts, |parts|), rules) == None
    {
      owner := FindOwner(paths[i], rules);
      if owner.Some? {
        if i > 0 {
          LongerPathIsOwned(paths[i], paths[0], rules);
          assert false;
        }
        return;
      }
    }
    return None;
  }

  lemma {:induction false} PathsShrink(parts: seq<string>, k: nat)
    requires k <= |parts|
    ensures |PathPrefixes(parts, k)| == k
    ensures k > 0 ==> PathPrefixes(parts, k)[0] == PathPrefix(parts, k)
    ensures forall i :: 0 <= i < k ==> PathPrefixes(parts, k)[i] <= PathPrefix(parts, k)
  {
    if k > 0 {
      PathsShrink(parts, k - 1);
      var shorter, longer := PathPrefix(parts, k - 1), PathPrefix(parts, k);
      assert shorter <= longer;
    }
  }

  /** A path that extends an owned path is owned. */
  lemma LongerPathIsOwned(path: string, longer: string, rules: seq<Rule>)
    requires path <= longer && OwnerOf(path, rules).Some?
    ensures OwnerOf(longer, rules).Some?
  {
    BestIsFirstLongest(path, rules);
    BestIsFirstLongest(longer, rules);
    assert Matches(longer, BestRule(path, rules).value);
  }
}
