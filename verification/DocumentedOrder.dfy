/** The priorities that docs/en_us/ingress/priority.md promises, and exactly when the first match meets them. */
module DocumentedOrder {
  import opened Multimaps
  import opened Kube
  import opened Names
  import opened Annotations
  import opened RouteRules
  import opened RuleOrder
  import opened Routing

  // ---------------------------------------------------------------- precision

  /** Exact host, wildcard host, any host. */
  function HostClass(host: string): int {
    if host == "" || host == "*" then 0 else if WildcardHost(host) then 1 else 2
  }

  /** Whatever a matches, b matches. */
  ghost predicate HostWithin(a: string, b: string) {
    forall q :: HostMatches(a, q) ==> HostMatches(b, q)
  }

  ghost predicate PathWithin(a: string, b: string) {
    forall q :: PathMatches(a, q) ==> PathMatches(b, q)
  }

  /** What a host matches, by its class. */
  lemma HostMatchesByClass(a: string, q: Request)
    ensures HostMatches(a, q) <==>
            match HostClass(a)
            case 0 => true
            case 1 => OneLabelBefore(q.host, a[2..])
            case _ => q.host == a
  {
    hide OneLabelBefore;
    if HostClass(a) != 0 {
      assert HostMatches(a, q) <==> Holds(HostPrimitive(a)[0], q);
    }
  }

  /** Among hosts that match one request, a higher class matches strictly fewer requests and
      an equal class the same ones. */
  lemma HostClassIsPrecision(a: string, b: string, q: Request)
    requires HostMatches(a, q) && HostMatches(b, q)
    ensures HostClass(a) == HostClass(b) ==> HostWithin(a, b)
    ensures HostClass(a) > HostClass(b) ==> HostWithin(a, b) && !HostWithin(b, a)
  {
    hide *;
    if HostClass(a) >= HostClass(b) {
      HigherClassWithin(a, b, q);
    }
    if HostClass(a) > HostClass(b) {
      var other := OtherRequest(a, b, q);
      NotWithin(b, a, other);
    }
  }

  lemma NotWithin(b: string, a: string, q: Request)
    requires HostMatches(b, q) && !HostMatches(a, q)
    ensures !HostWithin(b, a)
  {
    hide HostMatches;
  }

  lemma HigherClassWithin(a: string, b: string, q: Request)
    requires HostMatches(a, q) && HostMatches(b, q) && HostClass(a) >= HostClass(b)
    ensures HostWithin(a, b)
  {
    hide HostMatches; hide OneLabelBefore;
    HostMatchesByClass(a, q);
    HostMatchesByClass(b, q);
    forall q' | HostMatches(a, q')
      ensures HostMatches(b, q')
    {
      HostMatchesByClass(a, q');
      HostMatchesByClass(b, q');
      if HostClass(a) == 1 && HostClass(b) == 1 {
        SameDomain(q.host, a[2..], b[2..]);
      }
    }
  }

  lemma SameDomain(host: string, domain: string, domain': string)
    requires OneLabelBefore(host, domain) && OneLabelBefore(host, domain')
    ensures domain == domain'
  {
    assert domain == host[|Before(host, '.')| + 1..] == domain';
  }

  lemma SameWildcard(a: string, b: string, q: Request)
    requires HostClass(a) == 1 && HostClass(b) == 1 && HostMatches(a, q) && HostMatches(b, q)
    ensures a == b
  {
    hide HostMatches; hide OneLabelBefore;
    HostMatchesByClass(a, q);
    HostMatchesByClass(b, q);
    SameDomain(q.host, a[2..], b[2..]);
    assert a == "*." + a[2..] && b == "*." + b[2..];
  }

  /** A request that the lower class b matches and the higher class a does not. */
  lemma OtherRequest(a: string, b: string, q: Request) returns (other: Request)
    requires HostMatches(a, q) && HostMatches(b, q) && HostClass(a) > HostClass(b)
    ensures HostMatches(b, other) && !HostMatches(a, other)
  {
    hide HostMatches; hide OneLabelBefore;
    HostMatchesByClass(a, q);
    HostMatchesByClass(b, q);
    other := q.(host := if HostClass(a) == 1 then "" else "x" + q.host);
    HostMatchesByClass(a, other);
    HostMatchesByClass(b, other);
    if HostClass(b) == 1 {
      LabelGrows(q.host, b[2..]);
    } else if HostClass(a) == 1 {
      NoLabel(a[2..]);
    }
  }

  lemma LabelGrows(host: string, domain: string)
    requires OneLabelBefore(host, domain)
    ensures OneLabelBefore("x" + host, domain)
  {
    var front := Before(host, '.');
    assert ("x" + host)[1..] == host;
    assert Before("x" + host, '.') == "x" + front;
    assert "x" + host == ("x" + front) + "." + domain;
  }

  lemma NoLabel(domain: string)
    ensures !OneLabelBefore("", domain)
  {
  }

  /** Exact path before prefix, then the longer path. */
  predicate PathBefore(a: string, b: string) {
    (!WildcardPath(a) && WildcardPath(b)) || (WildcardPath(a) == WildcardPath(b) && |a| > |b|)
  }

  /** The path order never prefers the wider of two paths that match one request. */
  lemma PathBeforeIsPrecision(a: string, b: string, q: Request)
    requires PathMatches(a, q) && PathMatches(b, q) && PathBefore(a, b) && a != ""
    ensures PathWithin(a, b)
  {
    if b != "" && b != "*" && a != "*" {
      assert Holds(PathPrimitive(a)[0], q) && Holds(PathPrimitive(b)[0], q);
      forall q' | PathMatches(a, q')
        ensures PathMatches(b, q')
      {
        assert Holds(PathPrimitive(a)[0], q');
        if WildcardPath(a) {
          LongerPrefix(a[..|a| - 1], b[..|b| - 1], q.path, q'.path);
        }
      }
    }
  }

  lemma LongerPrefix(a: string, b: string, path: string, path': string)
    requires |a| > |b| && Slash(a) <= Slash(path) && Slash(b) <= Slash(path) && Slash(a) <= Slash(path')
    ensures Slash(b) <= Slash(path')
  {
  }

  // ---------------------------------------------------------------- the documented order

  function Declared(a: Annots): int {
    (if RouterCookie in a then 1 else 0) + (if RouterHeader in a then 1 else 0)
  }

  /** With non-empty annotation values the declared conditions are the conjuncts that are rendered. */
  lemma DeclaredIsRendered(r: Rule)
    requires Builds(r)
    requires RouterCookie in r.annotations ==> r.annotations[RouterCookie] != ""
    requires RouterHeader in r.annotations ==> r.annotations[RouterHeader] != ""
    ensures |GetRouteExpression(r.annotations).value| == Declared(r.annotations)
  {
  }

  /** More precise host, then more precise path, then more conditions, then cookie over header, then older. */
  predicate DocumentedBefore(a: Rule, b: Rule) {
    if HostClass(a.host) != HostClass(b.host) then HostClass(a.host) > HostClass(b.host)
    else if PathBefore(a.path, b.path) || PathBefore(b.path, a.path) then PathBefore(a.path, b.path)
    else if Declared(a.annotations) != Declared(b.annotations) then Declared(a.annotations) > Declared(b.annotations)
    else if (RouterCookie in a.annotations) != (RouterCookie in b.annotations) then RouterCookie in a.annotations
    else a.createTime < b.createTime
  }

  /** r matches and no matching rule of the list is documented to come before it. */
  ghost predicate DocumentedChoice(rules: seq<Rule>, q: Request, r: Rule) {
    r in rules && Matches(r, q) && forall s :: s in rules && Matches(s, q) ==> !DocumentedBefore(s, r)
  }

  ghost predicate SomeMatch(rules: seq<Rule>, q: Request, hostClass: int) {
    exists s :: s in rules && Matches(s, q) && HostClass(s.host) == hostClass
  }

  /** Apart from the catch-all, the comparator is the documented order on the rules a request matches. */
  lemma LessIsDocumented(a: Rule, b: Rule, q: Request)
    requires Matches(a, q) && Matches(b, q) && a.host != "" && b.host != ""
    requires (HostClass(a.host) == 0) == (HostClass(b.host) == 0)
    ensures Less(a, b) <==> DocumentedBefore(a, b)
  {
    hide Matches;
    MatchesParts(a, q);
    MatchesParts(b, q);
    if HostClass(a.host) == 2 && HostClass(b.host) == 2 {
      assert Holds(HostPrimitive(a.host)[0], q) && Holds(HostPrimitive(b.host)[0], q);
    }
    if HostClass(a.host) == 1 && HostClass(b.host) == 1 {
      SameWildcard(a.host, b.host, q);
    }
  }

  /** A catch-all rule precedes every wildcard rule; an exact rule precedes the catch-all unless the
      requested host has one character. */
  lemma CatchAllPlace(a: Rule, b: Rule, q: Request)
    requires Matches(a, q) && Matches(b, q) && a.host != "" && b.host != ""
    ensures HostClass(a.host) == 0 && HostClass(b.host) == 1 ==> Less(a, b)
    ensures HostClass(a.host) == 2 && HostClass(b.host) == 0 && |q.host| != 1 ==> Less(a, b)
    ensures HostClass(a.host) == 2 && HostClass(b.host) == 1 ==> Less(a, b)
  {
    hide Matches;
    MatchesParts(a, q);
    if HostClass(a.host) == 2 {
      assert Holds(HostPrimitive(a.host)[0], q);
    }
  }

  /** The first match is the documented choice unless it is a catch-all while a more specific host matches. */
  lemma DocumentedUnlessCatchAll(rules: seq<Rule>, q: Request, r: Rule)
    requires forall s :: s in rules ==> s.host != ""
    requires FirstMatch(StableSort(rules), q) == Some(r)
    ensures DocumentedChoice(rules, q, r) <==>
            !(HostClass(r.host) == 0 && (SomeMatch(rules, q, 1) || SomeMatch(rules, q, 2)))
  {
    FirstMatchPrecedes(rules, q, r);
    forall s | s in rules && Matches(s, q)
      ensures (HostClass(r.host) == 0) == (HostClass(s.host) == 0) ==> !DocumentedBefore(s, r)
      ensures HostClass(s.host) == 0 && HostClass(r.host) != 0 ==> !DocumentedBefore(s, r)
      ensures HostClass(s.host) != 0 && HostClass(r.host) == 0 ==> DocumentedBefore(s, r)
    {
      if (HostClass(r.host) == 0) == (HostClass(s.host) == 0) {
        LessIsDocumented(s, r, q);
      }
    }
  }

  lemma FirstMatchPrecedes(rules: seq<Rule>, q: Request, r: Rule)
    requires FirstMatch(StableSort(rules), q) == Some(r)
    ensures r in rules && Matches(r, q)
    ensures forall s :: s in rules && Matches(s, q) ==> !Less(s, r)
  {
    hide Matches; hide Less;
    FirstMatchOfSort(rules, q);
    BestFacts(rules, q);
    var i :| BestAt(rules, q, i) && rules[i] == r;
    forall s | s in rules && Matches(s, q)
      ensures !Less(s, r)
    {
      var j :| 0 <= j < |rules| && rules[j] == s;
    }
  }

  /** Read off the request and the rules alone: the documented order fails exactly when a catch-all and a
      wildcard rule both match and no exact host does, since "*" sorts above "*.domain". */
  lemma DocumentedOrderExactly(rules: seq<Rule>, q: Request, r: Rule)
    requires forall s :: s in rules ==> s.host != ""
    requires |q.host| != 1
    requires FirstMatch(StableSort(rules), q) == Some(r)
    ensures DocumentedChoice(rules, q, r) <==>
            !(SomeMatch(rules, q, 0) && SomeMatch(rules, q, 1) && !SomeMatch(rules, q, 2))
  {
    hide DocumentedChoice;
    hide Matches; hide Less;
    DocumentedUnlessCatchAll(rules, q, r);
    FirstMatchPrecedes(rules, q, r);
    forall s | s in rules && Matches(s, q)
      ensures HostClass(s.host) == 2 ==> HostClass(r.host) == 2
      ensures HostClass(s.host) == 0 ==> HostClass(r.host) != 1
      ensures HostClass(s.host) == HostClass(r.host) ==> SomeMatch(rules, q, HostClass(r.host))
    {
      CatchAllPlace(s, r, q);
    }
    assert SomeMatch(rules, q, HostClass(r.host));
  }

  /** In the sorted list rule i comes before rule j. */
  predicate ComesBefore(rules: seq<Rule>, i: nat, j: nat)
    requires i < |rules| && j < |rules|
  {
    Less(rules[i], rules[j]) || (i < j && !Less(rules[j], rules[i]))
  }

  /** Some matching rule has a more specific host than the catch-all, and a matching catch-all rule comes before all of these. */
  ghost predicate CatchAllFirst(rules: seq<Rule>, q: Request) {
    && (SomeMatch(rules, q, 1) || SomeMatch(rules, q, 2))
    && exists i :: 0 <= i < |rules| && Matches(rules[i], q) && HostClass(rules[i].host) == 0
         && forall j :: 0 <= j < |rules| && Matches(rules[j], q) && HostClass(rules[j].host) != 0 ==> ComesBefore(rules, i, j)
  }

  /** For every request, a one-character host included: the documented order fails exactly when the comparator puts a matching
      catch-all rule before every matching rule with a more specific host. */
  lemma DocumentedOrderFailsExactly(rules: seq<Rule>, q: Request, r: Rule)
    requires forall s :: s in rules ==> s.host != ""
    requires FirstMatch(StableSort(rules), q) == Some(r)
    ensures !DocumentedChoice(rules, q, r) <==> CatchAllFirst(rules, q)
  {
    hide Matches; hide Less; hide DocumentedChoice; hide StableSort; hide FirstMatch;
    DocumentedUnlessCatchAll(rules, q, r);
    FirstMatchOfSort(rules, q);
    BestFacts(rules, q);
    var k :| BestAt(rules, q, k) && rules[k] == r;
    if HostClass(r.host) == 0 {
      assert forall j :: 0 <= j < |rules| && Matches(rules[j], q) && HostClass(rules[j].host) != 0 ==> ComesBefore(rules, k, j);
    } else {
      forall i | 0 <= i < |rules| && Matches(rules[i], q) && HostClass(rules[i].host) == 0
        ensures !ComesBefore(rules, i, k)
      {
      }
    }
  }

  // ---------------------------------------------------------------- two inputs that show the limits

  const ANY := Rule(0, "n/i", "*", "/*", map[], "c", 0)
  const WILD := Rule(1, "n/j", "*.b", "/*", map[], "d", 0)
  const REQUEST := Request("a.b", "/", map[], map[])

  lemma BothMatch()
    ensures Matches(ANY, REQUEST) && Matches(WILD, REQUEST)
  {
  }

  /** A request to a.b matches "*" and "*.b"; the documentation prefers the second, the sorted list the first. */
  lemma CatchAllShadowsWildcard()
    ensures FirstMatch(StableSort([ANY, WILD]), REQUEST) == Some(ANY)
    ensures !DocumentedChoice([ANY, WILD], REQUEST, ANY)
  {
    hide Matches; hide Less;
    var rules := [ANY, WILD];
    BothMatch();
    CatchAllPlace(ANY, WILD, REQUEST);
    StrictWeakOrder(ANY, WILD, ANY);
    FirstMatchOfSort(rules, REQUEST);
    assert rules[1..] == [WILD] && rules[1..][1..] == [];
    assert Best(rules[1..], REQUEST) == Some(WILD);
    assert DocumentedBefore(WILD, ANY) && WILD in rules;
  }
}
