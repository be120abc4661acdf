/** The policy store, actor/policy.go, and role names, id/role.go. */
module Policy {
  import opened Common

  datatype Rule = Rule(scope: string, role: string, allow: bool)

  // ---- dotted names ----

  /** strings.Split(s, "."), characterised by SplitJoin. */
  function Split(s: string): (parts: seq<string>)
    ensures |parts| >= 1
  {
    if s == "" then [""]
    else
      var n := |s| - 1;
      var p := Split(s[..n]);
      if s[n] == '.' then p + [""] else p[..|p| - 1] + [p[|p| - 1] + [s[n]]]
  }

  /** strings.Join(parts, ".") */
  function Join(parts: seq<string>): string {
    if parts == [] then ""
    else if |parts| == 1 then parts[0]
    else Join(parts[..|parts| - 1]) + "." + parts[|parts| - 1]
  }

  /** The strict dot-prefixes of `s`, longest first. */
  function Above(s: string): seq<string> {
    if s == "" then []
    else
      var n := |s| - 1;
      (if s[n] == '.' then [s[..n]] else []) + Above(s[..n])
  }

  /** `p` is `s` or a parent of `s` in the dot hierarchy. */
  predicate Covers(p: string, s: string) { p == s || p + "." <= s }

  lemma CoversPrefix(p: string, s: string)
    requires Covers(p, s)
    ensures |p| <= |s| && p == s[..|p|]
  {
  }

  predicate NoDot(s: string) { '.' !in s }

  lemma {:induction false} SplitJoin(s: string)
    ensures Join(Split(s)) == s
    ensures forall part <- Split(s) :: NoDot(part)
  {
    if s != "" {
      var n := |s| - 1;
      SplitJoin(s[..n]);
      var p, q := Split(s[..n]), Split(s);
      assert q[..|q| - 1] == if s[n] == '.' then p else p[..|p| - 1];
      assert s == s[..n] + [s[n]];
      assert NoDot(p[|p| - 1]);
    }
  }

  /** What the parent loop computes: joining the first i parts gives the dot-prefixes. */
  lemma {:induction false} JoinPrefix(s: string, i: nat)
    requires 1 <= i < |Split(s)|
    ensures |Split(s)| == |Above(s)| + 1
    ensures Join(Split(s)[..i]) == Above(s)[|Split(s)| - 1 - i]
  {
    SplitCount(s);
    var n := |s| - 1;
    var t, p := s[..n], Split(s[..n]);
    SplitCount(t);
    if i < |p| {
      assert Split(s)[..i] == p[..i];
      JoinPrefix(t, i);
    } else {
      assert Split(s)[..i] == p;
      SplitJoin(t);
    }
  }

  lemma {:induction false} SplitCount(s: string)
    ensures |Split(s)| == |Above(s)| + 1
  {
    if s != "" { SplitCount(s[..|s| - 1]); }
  }

  lemma {:induction false} AboveIsPrefixes(s: string, p: string)
    ensures p in Above(s) <==> p + "." <= s
  {
    if s != "" {
      var n := |s| - 1;
      AboveIsPrefixes(s[..n], p);
      if p + "." <= s {
        if |p| == n { assert p == s[..n]; } else { assert p + "." <= s[..n]; }
      }
    }
  }

  lemma {:induction false} AboveShrinks(s: string)
    ensures forall k :: 0 <= k < |Above(s)| ==> |Above(s)[k]| < |s|
    ensures forall i, j :: 0 <= i < j < |Above(s)| ==> |Above(s)[i]| > |Above(s)[j]|
  {
    if s != "" { AboveShrinks(s[..|s| - 1]); }
  }

  // ---- keys and snapshots ----

  /** The wildcard's spelling in a key: a rule for role "*" is a wildcard rule too. */
  function Norm(role: string): string { if role == "*" then "" else role }

  function Key(scope: string, role: string): string {
    if role == "" then scope + ":*" else scope + ":" + role
  }

  predicate NoColon(s: string) { ':' !in s }

  /** A colon can only be the last character. */
  predicate NoInnerColon(s: string) { forall c :: 0 <= c < |s| && s[c] == ':' ==> c == |s| - 1 }

  /** One pair without a scope colon and without an inner role colon is enough: its flat
      key is then no other pair's key. */
  lemma KeyInjective(s: string, r: string, s': string, r': string)
    requires NoColon(s) && NoInnerColon(r)
    ensures Key(s, r) == Key(s', r') <==> s == s' && Norm(r) == Norm(r')
  {
    if Key(s, r) == Key(s', r') {
      if |s| < |s'| { ShorterScopeClash(s, r, s', r'); }
      if |s'| < |s| { ShorterScopeClash(s', r', s, r); }
      SameScopeSameRole(s, r, s', r');
    }
  }

  lemma SameScopeSameRole(s: string, r: string, s': string, r': string)
    requires |s| == |s'| && Key(s, r) == Key(s', r')
    ensures s == s' && Norm(r) == Norm(r')
  {
    assert s == Key(s, r)[..|s|] && s' == Key(s', r')[..|s|];
    assert Key(s, r)[|s| + 1..] == if r == "" then "*" else r;
    assert Key(s', r')[|s| + 1..] == if r' == "" then "*" else r';
  }

  lemma ShorterScopeClash(s: string, r: string, s': string, r': string)
    requires |s| < |s'| && Key(s, r) == Key(s', r')
    ensures !NoColon(s') && !NoInnerColon(r)
  {
    var k, c := Key(s, r), |s'| - |s| - 1;
    assert k[|s|] == ':' && s'[|s|] == k[|s|];
    assert k[|s| + 1..] == if r == "" then "*" else r;
    assert k[|s| + 1..][c] == ':';
    assert |k| > |s'| + 1;
  }

  /** Without colons in the roles, scopes may have them. */
  lemma KeyInjectiveByRoles(s: string, r: string, s': string, r': string)
    requires NoColon(r) && NoColon(r') && Key(s, r) == Key(s', r')
    ensures s == s' && Norm(r) == Norm(r')
  {
    if |s| < |s'| { ShorterScopeClash(s, r, s', r'); }
    if |s'| < |s| { ShorterScopeClash(s', r', s, r); }
    SameScopeSameRole(s, r, s', r');
  }

  function Snapshot(rules: seq<Rule>): map<string, bool> {
    if rules == [] then map[]
    else
      var last := rules[|rules| - 1];
      Snapshot(rules[..|rules| - 1])[Key(last.scope, last.role) := last.allow]
  }

  ghost predicate Keyed(rules: seq<Rule>, i: int, key: string) {
    0 <= i < |rules| && Key(rules[i].scope, rules[i].role) == key
  }

  /** A key's value is that of the last rule spelled with it. */
  lemma {:induction false} SnapshotHasLast(rules: seq<Rule>, key: string) returns (i: int)
    requires key in Snapshot(rules)
    ensures Keyed(rules, i, key) && rules[i].allow == Snapshot(rules)[key]
    ensures forall j :: Keyed(rules, j, key) ==> j <= i
  {
    var n := |rules| - 1;
    if Keyed(rules, n, key) { return n; }
    i := SnapshotHasLast(rules[..n], key);
    forall j | Keyed(rules, j, key) ensures j <= i { assert Keyed(rules[..n], j, key); }
  }

  lemma {:induction false} SnapshotHasAll(rules: seq<Rule>, i: nat)
    requires i < |rules|
    ensures Key(rules[i].scope, rules[i].role) in Snapshot(rules)
  {
    var n := |rules| - 1;
    if i < n { SnapshotHasAll(rules[..n], i); }
  }

  // ---- the search that Evaluate makes ----

  /** The scopes tried, in order; empty parents are passed over. */
  function Scopes(scope: string): seq<string> { [scope] + Above(scope) }

  /** The roles tried at each scope: the role, its effective chain, the wildcard. */
  function Roles(role: string): seq<string> { [role, role] + Above(role) + [""] }

  function RoleIndex(exact: map<string, bool>, p: string, roles: seq<string>, k: nat): (r: nat)
    requires k <= |roles|
    ensures k <= r <= |roles|
    ensures forall j :: k <= j < r ==> Key(p, roles[j]) !in exact
    ensures r < |roles| ==> Key(p, roles[r]) in exact
    decreases |roles| - k
  {
    if k == |roles| || Key(p, roles[k]) in exact then k else RoleIndex(exact, p, roles, k + 1)
  }

  function AtScope(exact: map<string, bool>, p: string, role: string): Option<bool> {
    var k := RoleIndex(exact, p, Roles(role), 0);
    if k < |Roles(role)| then Some(exact[Key(p, Roles(role)[k])]) else None
  }

  predicate Hit(exact: map<string, bool>, scope: string, role: string, i: nat)
    requires i < |Scopes(scope)|
  {
    (i == 0 || Scopes(scope)[i] != "") && AtScope(exact, Scopes(scope)[i], role).Some?
  }

  function ScopeIndex(exact: map<string, bool>, scope: string, role: string, i: nat): (r: nat)
    requires i <= |Scopes(scope)|
    ensures i <= r <= |Scopes(scope)|
    ensures forall j :: i <= j < r ==> !Hit(exact, scope, role, j)
    ensures r < |Scopes(scope)| ==> Hit(exact, scope, role, r)
    decreases |Scopes(scope)| - i
  {
    if i == |Scopes(scope)| || Hit(exact, scope, role, i) then i else ScopeIndex(exact, scope, role, i + 1)
  }

  /** None is the source's (false, false). */
  function Evaluate(exact: map<string, bool>, role: string, scope: string): Option<bool> {
    var i := ScopeIndex(exact, scope, role, 0);
    if i < |Scopes(scope)| then AtScope(exact, Scopes(scope)[i], role) else None
  }

  // ---- the reference: the best matching rule of the list ----

  predicate Matches(rule: Rule, role: string, scope: string) {
    && Covers(rule.scope, scope) && (rule.scope == "" ==> scope == "")
    && (Norm(rule.role) == "" || Covers(rule.role, role))
  }

  /** Rule `i` is at least as good as rule `j`: longer scope, then longer role, then later. */
  predicate AtLeast(rules: seq<Rule>, i: nat, j: nat)
    requires i < |rules| && j < |rules|
  {
    || |rules[i].scope| > |rules[j].scope|
    || (&& |rules[i].scope| == |rules[j].scope|
        && (|| |Norm(rules[i].role)| > |Norm(rules[j].role)|
            || (|Norm(rules[i].role)| == |Norm(rules[j].role)| && i >= j)))
  }

  ghost predicate Wins(rules: seq<Rule>, role: string, scope: string, i: nat) {
    && i < |rules| && Matches(rules[i], role, scope)
    && forall j: nat :: j < |rules| && Matches(rules[j], role, scope) ==> AtLeast(rules, i, j)
  }

  /** No rule answers to a key that the search tries, unless it is the key's own pair. */
  ghost predicate Separate(rules: seq<Rule>, role: string, scope: string) {
    forall m: nat, k: nat, i :: Tries(rules, role, scope, m, k, i) ==>
      rules[i].scope == Scopes(scope)[m] && Norm(rules[i].role) == Norm(Roles(role)[k])
  }

  /** Rule `i` has the key of the `m`-th scope and the `k`-th role tried. */
  ghost predicate Tries(rules: seq<Rule>, role: string, scope: string, m: nat, k: nat, i: int) {
    m < |Scopes(scope)| && k < |Roles(role)| && Keyed(rules, i, Key(Scopes(scope)[m], Roles(role)[k]))
  }

  lemma ScopesOrdered(scope: string, p: string)
    ensures p in Scopes(scope) <==> Covers(p, scope)
    ensures forall i, j :: 0 <= i < j < |Scopes(scope)| ==> |Scopes(scope)[i]| > |Scopes(scope)[j]|
  {
    AboveIsPrefixes(scope, p);
    AboveShrinks(scope);
  }

  lemma RoleCovers(role: string, k: nat)
    requires k < |Roles(role)|
    ensures Roles(role)[k] == "" || Covers(Roles(role)[k], role)
  {
    if 2 <= k < |Roles(role)| - 1 { AboveIsPrefixes(role, Roles(role)[k]); }
  }

  lemma RolesOrdered(role: string, i: nat, j: nat)
    requires i <= j < |Roles(role)|
    ensures |Norm(Roles(role)[i])| >= |Norm(Roles(role)[j])|
  {
    AboveShrinks(role);
    if 2 <= i < |Roles(role)| - 1 { assert |Above(role)[i - 2]| < |role|; }
    if 2 <= j < |Roles(role)| - 1 { assert |Above(role)[j - 2]| < |role|; }
  }

  /** A matching rule's key is one that the search tries. */
  lemma RoleTried(rule: Rule, role: string) returns (k: nat)
    requires Norm(rule.role) == "" || Covers(rule.role, role)
    ensures k < |Roles(role)| && Norm(Roles(role)[k]) == Norm(rule.role)
  {
    if Norm(rule.role) == "" { return |Roles(role)| - 1; }
    if rule.role == role { return 0; }
    AboveIsPrefixes(role, rule.role);
    var m :| 0 <= m < |Above(role)| && Above(role)[m] == rule.role;
    k := m + 2;
  }

  lemma KeyByNorm(p: string, r: string, r': string)
    requires Norm(r) == Norm(r')
    ensures Key(p, r) == Key(p, r')
  {
  }

  /** A matching rule is found no later than its own place in the search. */
  lemma {:induction false} RuleFound(rules: seq<Rule>, role: string, scope: string, j: nat) returns (m: nat, k: nat)
    requires j < |rules| && Matches(rules[j], role, scope)
    ensures m < |Scopes(scope)| && Scopes(scope)[m] == rules[j].scope
    ensures k < |Roles(role)| && Norm(Roles(role)[k]) == Norm(rules[j].role)
    ensures RoleIndex(Snapshot(rules), rules[j].scope, Roles(role), 0) <= k
    ensures Hit(Snapshot(rules), scope, role, m)
  {
    var p := rules[j].scope;
    ScopesOrdered(scope, p);
    m :| 0 <= m < |Scopes(scope)| && Scopes(scope)[m] == p;
    k := RoleTried(rules[j], role);
    SnapshotHasAll(rules, j);
    KeyByNorm(p, Roles(role)[k], rules[j].role);
    if p == "" { assert m == 0 by { ScopesOrdered(scope, ""); } }
  }

  /** The rule that the search stops at wins. */
  lemma {:induction false} FoundWins(rules: seq<Rule>, role: string, scope: string) returns (i: nat)
    requires Separate(rules, role, scope)
    requires Evaluate(Snapshot(rules), role, scope).Some?
    ensures Wins(rules, role, scope, i)
    ensures Evaluate(Snapshot(rules), role, scope) == Some(rules[i].allow)
  {
    var exact := Snapshot(rules);
    var m := ScopeIndex(exact, scope, role, 0);
    var p := Scopes(scope)[m];
    var k := RoleIndex(exact, p, Roles(role), 0);
    i := SnapshotHasLast(rules, Key(p, Roles(role)[k]));
    assert Tries(rules, role, scope, m, k, i);
    assert rules[i].scope == p && Norm(rules[i].role) == Norm(Roles(role)[k]);
    ScopesOrdered(scope, p);
    RoleCovers(role, k);
    forall j: nat | j < |rules| && Matches(rules[j], role, scope) ensures AtLeast(rules, i, j) {
      var m', k' := RuleFound(rules, role, scope, j);
      assert m <= m';
      if m == m' {
        RolesOrdered(role, k, k');
        if |Norm(rules[i].role)| == |Norm(rules[j].role)| {
          SameRole(role, k, k');
          KeyByNorm(p, Roles(role)[k], rules[j].role);
          assert Keyed(rules, j, Key(p, Roles(role)[k]));
        }
      }
    }
  }

  lemma SameRole(role: string, k: nat, k': nat)
    requires k < |Roles(role)| && k' < |Roles(role)|
    requires |Norm(Roles(role)[k])| == |Norm(Roles(role)[k'])|
    ensures Norm(Roles(role)[k]) == Norm(Roles(role)[k'])
  {
    RoleCovers(role, k);
    RoleCovers(role, k');
    if Norm(Roles(role)[k]) != "" {
      CoversPrefix(Roles(role)[k], role);
      CoversPrefix(Roles(role)[k'], role);
    }
  }

  /** The winner is unique. */
  lemma OneWinner(rules: seq<Rule>, role: string, scope: string, i: nat, j: nat)
    requires Wins(rules, role, scope, i) && Wins(rules, role, scope, j)
    ensures i == j
  {
  }

  /** Evaluate answers with the allow bit of the most specific rule - longest scope, then
      longest role with the wildcard last, then the latest duplicate - and says "not
      found" exactly when no rule matches. */
  ghost predicate MostSpecific(rules: seq<Rule>, role: string, scope: string) {
    var v := Evaluate(Snapshot(rules), role, scope);
    && (v.None? <==> forall i: nat :: i < |rules| ==> !Matches(rules[i], role, scope))
    && (forall i: nat :: Wins(rules, role, scope, i) ==> v == Some(rules[i].allow))
    && (v.Some? ==> exists i: nat :: Wins(rules, role, scope, i))
  }

  lemma {:induction false} SeparateIsMostSpecific(rules: seq<Rule>, role: string, scope: string)
    requires Separate(rules, role, scope)
    ensures MostSpecific(rules, role, scope)
  {
    var v := Evaluate(Snapshot(rules), role, scope);
    if v.Some? {
      var w := FoundWins(rules, role, scope);
      forall i: nat | Wins(rules, role, scope, i) ensures i == w { OneWinner(rules, role, scope, i, w); }
      assert Matches(rules[w], role, scope);
    } else {
      forall i: nat | i < |rules| ensures !Matches(rules[i], role, scope) {
        if Matches(rules[i], role, scope) { var m, k := RuleFound(rules, role, scope, i); }
      }
    }
  }

  /** What a caller can check before asking. */
  predicate SafeQuery(role: string, scope: string) { NoColon(scope) && NoInnerColon(role) }

  lemma SafeQuerySeparates(rules: seq<Rule>, role: string, scope: string)
    requires SafeQuery(role, scope)
    ensures Separate(rules, role, scope)
  {
    forall m: nat, k: nat, i | Tries(rules, role, scope, m, k, i)
      ensures rules[i].scope == Scopes(scope)[m] && Norm(rules[i].role) == Norm(Roles(role)[k])
    {
      TriedScopeSafe(scope, m);
      TriedRoleSafe(role, k);
      KeyInjective(Scopes(scope)[m], Roles(role)[k], rules[i].scope, rules[i].role);
    }
  }

  lemma TriedScopeSafe(scope: string, m: nat)
    requires NoColon(scope) && m < |Scopes(scope)|
    ensures NoColon(Scopes(scope)[m])
  {
    ScopesOrdered(scope, Scopes(scope)[m]);
    CoversPrefix(Scopes(scope)[m], scope);
  }

  lemma TriedRoleSafe(role: string, k: nat)
    requires k < |Roles(role)|
    ensures NoInnerColon(role) ==> NoInnerColon(Roles(role)[k])
    ensures NoColon(role) ==> NoColon(Roles(role)[k])
  {
    RoleCovers(role, k);
    if Roles(role)[k] != "" { CoversPrefix(Roles(role)[k], role); }
  }

  /** Evaluate is right for every rule list if and only if the queried scope has no colon
      and the queried role none before its last character. */
  lemma EvaluateIsMostSpecific(role: string, scope: string)
    ensures SafeQuery(role, scope) <==> forall rules :: MostSpecific(rules, role, scope)
  {
    if SafeQuery(role, scope) {
      forall rules ensures MostSpecific(rules, role, scope) {
        SafeQuerySeparates(rules, role, scope);
        SeparateIsMostSpecific(rules, role, scope);
      }
    } else {
      var rule := UnsafeQueryLeaks(role, scope);
      assert !Matches([rule][0], role, scope);
      assert !MostSpecific([rule], role, scope);
    }
  }

  /** Every other query is decided by some rule that does not match it. */
  lemma UnsafeQueryLeaks(role: string, scope: string) returns (rule: Rule)
    requires !SafeQuery(role, scope)
    ensures !Matches(rule, role, scope) && Evaluate(Snapshot([rule]), role, scope) == Some(rule.allow)
  {
    if !NoColon(scope) {
      var c :| 0 <= c < |scope| && scope[c] == ':';
      rule := ScopeLeak(role, scope, c);
    } else {
      var c :| 0 <= c < |role| - 1 && role[c] == ':';
      rule := RoleLeak(role, scope, c);
    }
    SingleRuleDecides(rule, role, scope);
  }

  lemma ScopeLeak(role: string, scope: string, c: nat) returns (rule: Rule)
    requires c < |scope| && scope[c] == ':'
    ensures !Matches(rule, role, scope) && Key(rule.scope, rule.role) == Key(scope, role)
  {
    rule := Rule(scope[..c], scope[c + 1..] + ":" + if role == "" then "*" else role, true);
    assert (rule.scope + ".")[c] == '.';
  }

  lemma RoleLeak(role: string, scope: string, c: nat) returns (rule: Rule)
    requires c + 1 < |role| && role[c] == ':'
    ensures !Matches(rule, role, scope) && Key(rule.scope, rule.role) == Key(scope, role)
  {
    rule := Rule(scope + ":" + role[..c], role[c + 1..], true);
    assert role == role[..c] + ":" + role[c + 1..];
  }

  lemma SingleRuleDecides(rule: Rule, role: string, scope: string)
    requires Key(rule.scope, rule.role) == Key(scope, role)
    ensures Evaluate(Snapshot([rule]), role, scope) == Some(rule.allow)
  {
    assert [rule][..0] == [];
    assert Snapshot([rule]) == map[Key(scope, role) := rule.allow];
    assert RoleIndex(Snapshot([rule]), scope, Roles(role), 0) == 0;
    assert Hit(Snapshot([rule]), scope, role, 0);
  }

  // ---- role names ----

  predicate Letter(c: char) { 'a' <= c <= 'z' }

  predicate WordChar(c: char) { Letter(c) || '0' <= c <= '9' || c == '_' }

  /** [a-z][a-z0-9_]* */
  predicate Segment(s: string) { s != "" && Letter(s[0]) && forall c <- s :: WordChar(c) }

  /** Segments joined by dots. */
  predicate RoleName(s: string) { forall part <- Split(s) :: Segment(part) }

  /** No continuation of `s` is a valid role name. */
  ghost predicate Dead(s: string) {
    var p := Split(s);
    || (exists k :: 0 <= k < |p| - 1 && !Segment(p[k]))
    || (p[|p| - 1] != "" && !Segment(p[|p| - 1]))
  }

  lemma DeadStep(s: string, c: char)
    requires Dead(s)
    ensures Dead(s + [c])
  {
    var p, q := Split(s), Split(s + [c]);
    assert (s + [c])[..|s|] == s;
    if k :| 0 <= k < |p| - 1 && !Segment(p[k]) {
      assert q[k] == p[k];
    } else if c == '.' {
      assert q[|p| - 1] == p[|p| - 1];
    } else {
      var w := p[|p| - 1];
      assert q[|q| - 1] == w + [c];
      assert (w + [c])[0] == w[0] && forall d <- w :: d in w + [c];
    }
  }

  lemma {:induction false} DeadStays(s: string, i: nat)
    requires i <= |s| && Dead(s[..i])
    ensures !RoleName(s)
    decreases |s| - i
  {
    if i == |s| {
      assert s[..i] == s;
    } else {
      DeadStep(s[..i], s[i]);
      assert s[..i + 1] == s[..i] + [s[i]];
      DeadStays(s, i + 1);
    }
  }

  /** All complete segments are valid, and the open one is empty or valid so far. */
  ghost predicate Alive(s: string, segStart: bool) {
    var p := Split(s);
    && (forall k :: 0 <= k < |p| - 1 ==> Segment(p[k]))
    && (if segStart then p[|p| - 1] == "" else Segment(p[|p| - 1]))
  }

  lemma NameStep(s: string, segStart: bool, c: char)
    requires Alive(s, segStart)
    ensures if if segStart then Letter(c) else WordChar(c) then Alive(s + [c], false)
            else if !segStart && c == '.' then Alive(s + [c], true)
            else Dead(s + [c])
  {
    var p, q := Split(s), Split(s + [c]);
    var w := p[|p| - 1];
    assert (s + [c])[..|s|] == s;
    if c == '.' {
      assert q == p + [""] && q[|p| - 1] == w;
    } else {
      assert q == p[..|p| - 1] + [w + [c]] && q[|q| - 1] == w + [c];
      assert c in w + [c];
    }
  }

  lemma AliveEnds(s: string, segStart: bool)
    ensures Alive(s, segStart) ==> (!segStart <==> RoleName(s))
  {
    assert Split(s)[|Split(s)| - 1] in Split(s);
  }

  method ValidRoleName(s: string) returns (ok: bool)
    ensures ok <==> RoleName(s)
  {
    if s == "" { assert "" in Split(s); return false; }
    var segStart := true;
    var i := 0;
    while i < |s|
      invariant 0 <= i <= |s| && Alive(s[..i], segStart)
    {
      var c := s[i];
      NameStep(s[..i], segStart, c);
      assert s[..i + 1] == s[..i] + [c];
      if segStart {
        if !Letter(c) { DeadStays(s, i + 1); return false; }
        segStart := false;
      } else if WordChar(c) {
      } else if c == '.' {
        segStart := true;
      } else {
        DeadStays(s, i + 1);
        return false;
      }
      i := i + 1;
    }
    AliveEnds(s, segStart);
    assert s[..i] == s;
    ok := !segStart;
  }

  lemma {:induction false} CharInPart(s: string, k: nat)
    requires k < |s|
    ensures s[k] == '.' || exists part <- Split(s) :: s[k] in part
  {
    var n := |s| - 1;
    var p, q := Split(s[..n]), Split(s);
    if s[k] != '.' {
      if k == n {
        assert s[k] in q[|q| - 1];
      } else {
        CharInPart(s[..n], k);
        var j :| 0 <= j < |p| && s[k] in p[j];
        assert s[k] in q[j];
      }
    }
  }

  /** Among valid role names Evaluate is right whatever the scopes, and no rule is taken
      for a wildcard. */
  lemma ValidNamesMostSpecific(rules: seq<Rule>, role: string, scope: string)
    requires RoleName(role) && forall rule <- rules :: rule.role == "" || RoleName(rule.role)
    ensures MostSpecific(rules, role, scope)
    ensures forall rule <- rules :: Norm(rule.role) == rule.role
  {
    ValidNoColon(role);
    forall rule <- rules ensures NoColon(rule.role) && Norm(rule.role) == rule.role {
      if rule.role != "" { ValidNoColon(rule.role); }
    }
    forall m: nat, k: nat, i | Tries(rules, role, scope, m, k, i)
      ensures rules[i].scope == Scopes(scope)[m] && Norm(rules[i].role) == Norm(Roles(role)[k])
    {
      TriedRoleSafe(role, k);
      assert rules[i] in rules;
      KeyInjectiveByRoles(Scopes(scope)[m], Roles(role)[k], rules[i].scope, rules[i].role);
    }
    SeparateIsMostSpecific(rules, role, scope);
  }

  lemma ValidNoColon(s: string)
    requires RoleName(s)
    ensures NoColon(s) && s != "*"
  {
    forall k | 0 <= k < |s| ensures s[k] == '.' || WordChar(s[k]) { CharInPart(s, k); }
    assert "*"[0] == '*';
  }

  method Effective(r: string) returns (chain: seq<string>)
    ensures chain == [r] + Above(r)
  {
    SplitCount(r);
    SplitJoin(r);
    if '.' !in r {
      NoDotNoAbove(r);
      return [r];
    }
    var parts := Split(r);
    var result := new string[|parts|];
    var i := 0;
    while i < |parts|
      invariant 0 <= i <= |parts| == result.Length
      invariant forall k :: |parts| - i <= k < |parts| ==> result[k] == ([r] + Above(r))[k]
    {
      if i + 1 < |parts| { JoinPrefix(r, i + 1); } else { assert parts[..i + 1] == parts; }
      result[|parts| - 1 - i] := Join(parts[..i + 1]);
      i := i + 1;
    }
    chain := result[..];
  }

  lemma {:induction false} NoDotNoAbove(s: string)
    requires '.' !in s
    ensures Above(s) == []
  {
    if s != "" {
      assert s[|s| - 1] in s;
      NoDotNoAbove(s[..|s| - 1]);
    }
  }

  class PolicyStore {
    var version: nat
    var exact: map<string, bool>

    constructor ()
      ensures version == 0 && exact == Snapshot([])
    {
      version, exact := 0, map[];
    }

    method Reload(policies: seq<Rule>)
      modifies this
      ensures version == old(version) + 1 && exact == Snapshot(policies)
    {
      version := version + 1;
      exact := BuildSnapshot(policies);
    }

    static method BuildSnapshot(policies: seq<Rule>) returns (m: map<string, bool>)
      ensures m == Snapshot(policies)
    {
      m := map[];
      var i := 0;
      while i < |policies|
        invariant 0 <= i <= |policies| && m == Snapshot(policies[..i])
      {
        assert policies[..i + 1][..i] == policies[..i];
        m := m[Key(policies[i].scope, policies[i].role) := policies[i].allow];
        i := i + 1;
      }
      assert policies[..i] == policies;
    }

    /** The block that Evaluate repeats for each scope. */
    method TryScope(role: string, p: string) returns (v: Option<bool>)
      ensures v == AtScope(exact, p, role)
    {
      ghost var roles := Roles(role);
      if Key(p, role) in exact { return Some(exact[Key(p, role)]); }
      assert Key(p, roles[0]) !in exact;
      var chain := Effective(role);
      var i := 0;
      while i < |chain|
        invariant 0 <= i <= |chain|
        invariant forall j :: 0 <= j <= i ==> Key(p, roles[j]) !in exact
      {
        assert chain[i] == roles[i + 1];
        if Key(p, chain[i]) in exact { return Some(exact[Key(p, chain[i])]); }
        i := i + 1;
      }
      assert roles[|chain| + 1] == "";
      if Key(p, "") in exact { return Some(exact[Key(p, "")]); }
      v := None;
    }

    method EvaluateRole(role: string, scope: string) returns (v: Option<bool>)
      ensures v == Evaluate(exact, role, scope)
    {
      v := TryScope(role, scope);
      if v.Some? { assert Hit(exact, scope, role, 0); return; }
      SplitCount(scope);
      var parts := Split(scope);
      var i := |parts| - 1;
      while i >= 0
        invariant -1 <= i < |parts|
        invariant forall j :: 0 <= j < |parts| - i && j < |parts| ==> !Hit(exact, scope, role, j)
        decreases i
      {
        var parent := Join(parts[..i]);
        if i > 0 { JoinPrefix(scope, i); assert parent == Scopes(scope)[|parts| - i]; }
        if parent != "" {
          v := TryScope(role, parent);
          if v.Some? { assert Hit(exact, scope, role, |parts| - i); return; }
        }
        i := i - 1;
      }
      v := None;
    }
  }
}
