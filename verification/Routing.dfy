/** What the sorted advanced list means for a request: conditions (serverDataConfig.go:303-379) and
    first-match routing over them. */
module Routing {
  import opened Multimaps
  import opened Kube
  import opened Names
  import opened Annotations
  import opened RouteRules
  import opened RuleOrder
  import opened RuleLists

  // ---------------------------------------------------------------- conditions

  function HostPrimitive(host: string): seq<Primitive> {
    if host == "" || host == "*" then []
    else if WildcardHost(host) then [HostWildcard(host[2..])]
    else [HostIn(host)]
  }

  function PathPrimitive(path: string): seq<Primitive> {
    if path == "" || path == "*" then []
    else if path[|path| - 1] == '*' then [PathElementPrefixIn(path[..|path| - 1])]
    else [PathIn(path)]
  }

  /** The conjuncts in order; None is the error of a malformed annotation. */
  function BuildCondition(host: string, path: string, a: Annots): Option<seq<Primitive>> {
    match GetRouteExpression(a)
    case None => None
    case Some(expression) => Some(HostPrimitive(host) + PathPrimitive(path) + expression)
  }

  predicate Builds(r: Rule) {
    BuildCondition(r.host, r.path, r.annotations).Some?
  }

  // ---------------------------------------------------------------- requests

  datatype Request = Request(host: string, path: string, cookies: map<string, string>, headers: map<string, string>)

  function Slash(path: string): string {
    if path != "" && path[|path| - 1] == '/' then path else path + "/"
  }

  /** Exactly one DNS label before the domain: the meaning the conformance tests give to "*.". */
  predicate OneLabelBefore(host: string, domain: string) {
    var front := Before(host, '.');
    front != "" && host == front + "." + domain
  }

  predicate Holds(p: Primitive, q: Request) {
    match p
    case HostIn(host) => q.host == host
    case HostWildcard(domain) => OneLabelBefore(q.host, domain)
    case PathIn(path) => q.path == path
    case PathElementPrefixIn(prefix) => Slash(prefix) <= Slash(q.path)
    case CookieValueIn(key, value) => key in q.cookies && q.cookies[key] == value
    case HeaderValueIn(key, value) => key in q.headers && q.headers[key] == value
  }

  predicate AllHold(ps: seq<Primitive>, q: Request) {
    forall p :: p in ps ==> Holds(p, q)
  }

  predicate HostMatches(host: string, q: Request) { AllHold(HostPrimitive(host), q) }

  predicate PathMatches(path: string, q: Request) { AllHold(PathPrimitive(path), q) }

  predicate Matches(r: Rule, q: Request) {
    var condition := BuildCondition(r.host, r.path, r.annotations);
    condition.Some? && AllHold(condition.value, q)
  }

  lemma MatchesParts(r: Rule, q: Request)
    requires Matches(r, q)
    ensures HostMatches(r.host, q) && PathMatches(r.path, q)
  {
  }

  /** BFE takes the first advanced rule whose condition holds. */
  function FirstMatch(rules: seq<Rule>, q: Request): Option<Rule> {
    if rules == [] then None
    else if Matches(rules[0], q) then Some(rules[0])
    else FirstMatch(rules[1..], q)
  }

  // ---------------------------------------------------------------- the first match of a sorted list

  /** The choice made directly on the unsorted list. */
  function Best(rules: seq<Rule>, q: Request): Option<Rule> {
    if rules == [] then None else
      var rest := Best(rules[1..], q);
      if !Matches(rules[0], q) then rest
      else if rest.Some? && Less(rest.value, rules[0]) then rest
      else Some(rules[0])
  }

  lemma {:induction false} InsertFirstMatch(r: Rule, s: seq<Rule>, q: Request)
    requires Sorted(s)
    ensures FirstMatch(Insert(r, s), q) ==
            if !Matches(r, q) then FirstMatch(s, q)
            else if FirstMatch(s, q).Some? && Less(FirstMatch(s, q).value, r) then FirstMatch(s, q)
            else Some(r)
  {
    hide Matches;
    if s != [] && Less(s[0], r) {
      assert Sorted(s[1..]);
      InsertFirstMatch(r, s[1..], q);
      assert Insert(r, s)[1..] == Insert(r, s[1..]);
    } else {
      assert ([r] + s)[1..] == s;
      FirstMatchMember(s, q);
      if FirstMatch(s, q).Some? {
        var m := FirstMatch(s, q).value;
        var j :| 0 <= j < |s| && s[j] == m;
        StrictWeakOrder(m, s[0], r);
      }
    }
  }

  lemma {:induction false} FirstMatchMember(s: seq<Rule>, q: Request)
    ensures FirstMatch(s, q).Some? ==> FirstMatch(s, q).value in s && Matches(FirstMatch(s, q).value, q)
    ensures FirstMatch(s, q).None? ==> forall r :: r in s ==> !Matches(r, q)
  {
    hide Matches;
    if s != [] {
      FirstMatchMember(s[1..], q);
    }
  }

  lemma {:induction false} FirstMatchOfSort(s: seq<Rule>, q: Request)
    ensures FirstMatch(StableSort(s), q) == Best(s, q)
  {
    hide Matches; hide Less;
    if s != [] {
      FirstMatchOfSort(s[1..], q);
      SortFacts(s[1..]);
      InsertFirstMatch(s[0], StableSort(s[1..]), q);
    }
  }

  /** Best is a matching rule that nothing matching precedes, and the earliest such in the list. */
  lemma {:induction false} BestFacts(s: seq<Rule>, q: Request)
    ensures Best(s, q).None? <==> forall j :: 0 <= j < |s| ==> !Matches(s[j], q)
    ensures Best(s, q).Some? ==> exists i :: BestAt(s, q, i) && s[i] == Best(s, q).value
  {
    hide Matches; hide Less;
    if s != [] {
      var rest := s[1..];
      BestFacts(rest, q);
      if Best(s, q) == Best(rest, q) && Best(rest, q).Some? && !(Matches(s[0], q) && s[0] == Best(s, q).value) {
        var i :| BestAt(rest, q, i) && rest[i] == Best(rest, q).value;
        BestAtShift(s, q, i);
        assert s[i + 1] == rest[i];
      } else if Matches(s[0], q) {
        if Best(rest, q).Some? {
          var i :| BestAt(rest, q, i) && rest[i] == Best(rest, q).value;
          BestAtHead(s, q, i);
        }
        StrictWeakOrder(s[0], s[0], s[0]);
        assert forall j :: 1 <= j < |s| ==> s[j] == rest[j - 1];
        assert BestAt(s, q, 0);
      }
      assert forall j :: 1 <= j < |s| ==> s[j] == rest[j - 1];
    }
  }

  ghost predicate BestAt(s: seq<Rule>, q: Request, i: int) {
    && 0 <= i < |s| && Matches(s[i], q)
    && (forall j :: 0 <= j < |s| && Matches(s[j], q) ==> !Less(s[j], s[i]))
    && (forall j :: 0 <= j < i && Matches(s[j], q) ==> Less(s[i], s[j]))
  }

  lemma BestAtShift(s: seq<Rule>, q: Request, i: nat)
    requires s != [] && BestAt(s[1..], q, i)
    requires Matches(s[0], q) ==> Less(s[1..][i], s[0])
    ensures BestAt(s, q, i + 1)
  {
  }

  lemma BestAtHead(s: seq<Rule>, q: Request, i: nat)
    requires s != [] && BestAt(s[1..], q, i) && Matches(s[0], q) && !Less(s[1..][i], s[0])
    ensures BestAt(s, q, 0)
  {
    hide Matches;
    forall j | 0 <= j < |s|
      ensures Matches(s[j], q) ==> !Less(s[j], s[0])
    {
      StrictWeakOrder(s[j], s[1..][i], s[0]);
      StrictWeakOrder(s[0], s[0], s[0]);
      if j > 0 {
        assert s[j] == s[1..][j - 1];
      }
    }
  }

  // ---------------------------------------------------------------- order independence

  /** The rule a request meets when get enumerates in order e. */
  function Route(c: Cache, e: Enumeration, q: Request): Option<Rule> {
    FirstMatch(GetAdvanced(c.ruleMap, e), q)
  }

  ghost predicate OrderIndependent(c: Cache, q: Request) {
    forall e, e' :: Enumerates(e, c.ruleMap) && Enumerates(e', c.ruleMap) ==> Route(c, e, q) == Route(c, e', q)
  }

  /** A matching advanced rule that no matching advanced rule precedes. */
  ghost predicate Contender(c: Cache, q: Request, r: Rule) {
    && LiveAdvanced(c, r) && Matches(r, q)
    && forall s :: LiveAdvanced(c, s) && Matches(s, q) ==> !Less(s, r)
  }

  predicate SamePlace(a: Rule, b: Rule) {
    a.host == b.host && a.path == b.path
  }

  lemma ContendersTie(c: Cache, q: Request, a: Rule, b: Rule)
    requires Contender(c, q, a) && Contender(c, q, b)
    ensures Tied(a, b)
  {
  }

  /** The best of a list of all advanced rules is a contender, and the first one in the list. */
  lemma BestIsContender(c: Cache, s: seq<Rule>, q: Request, i: nat)
    requires BestAt(s, q, i) && forall r :: r in s <==> LiveAdvanced(c, r)
    ensures Contender(c, q, s[i]) && forall j :: 0 <= j < i ==> !Contender(c, q, s[j])
  {
  }

  /** The routed rule is a contender, at an index before which no contender stands. */
  lemma RouteIsContender(c: Cache, e: Enumeration, q: Request) returns (i: nat)
    requires Inv(c) && Enumerates(e, c.ruleMap) && Route(c, e, q).Some?
    ensures var s := AdvancedRules(Buckets(c.ruleMap, e, e.hosts));
            i < |s| && s[i] == Route(c, e, q).value && Contender(c, q, s[i])
            && forall j :: 0 <= j < i ==> !Contender(c, q, s[j])
  {
    hide Inv; hide Matches; hide Buckets; hide LiveAdvanced; hide AdvancedRules; hide Less; hide Contender; hide Enumerates; hide FirstMatch;
    var s := AdvancedRules(Buckets(c.ruleMap, e, e.hosts));
    FirstMatchOfSort(s, q);
    BestFacts(s, q);
    i :| BestAt(s, q, i) && s[i] == Best(s, q).value;
    forall r
      ensures r in s <==> LiveAdvanced(c, r)
    {
      AdvancedExactly(c, e, r);
    }
    BestIsContender(c, s, q, i);
  }

  lemma NoRouteNoContender(c: Cache, e: Enumeration, q: Request, r: Rule)
    requires Inv(c) && Enumerates(e, c.ruleMap) && Contender(c, q, r)
    ensures Route(c, e, q).Some?
  {
    hide Inv; hide Matches; hide Buckets; hide AdvancedRules; hide Less;
    var s := AdvancedRules(Buckets(c.ruleMap, e, e.hosts));
    AdvancedExactly(c, e, r);
    FirstMatchOfSort(s, q);
    BestFacts(s, q);
    var j :| 0 <= j < |s| && s[j] == r;
  }

  /** If all contenders share a bucket, the routed rule is the first contender of that bucket. */
  lemma FirstContenderOfBucket(c: Cache, e: Enumeration, q: Request, k: nat)
    requires Inv(c) && Enumerates(e, c.ruleMap) && Route(c, e, q).Some?
    requires var b := Bucket(c.ruleMap, Route(c, e, q).value.host, Route(c, e, q).value.path);
             k < |b| && Contender(c, q, b[k])
    ensures var r := Route(c, e, q).value; var b := Bucket(c.ruleMap, r.host, r.path);
            exists m :: 0 <= m <= k && b[m] == r
  {
    var bs := Buckets(c.ruleMap, e, e.hosts);
    var s := AdvancedRules(bs);
    var r := Route(c, e, q).value;
    var b := Bucket(c.ruleMap, r.host, r.path);
    var i := RouteIsContender(c, e, q);
    AllBuckets(c, e);
    RuleOfBucket(c, r.host, r.path, r);
    assert c.ruleMap[r.host][r.path] == b;
    AdvancedDistinct(c, bs);
    hide Inv; hide Buckets; hide Route; hide Enumerates; hide Contender; hide BucketList;
    var n :| 0 <= n < |bs| && bs[n] == b;
    assert r in b && Advanced(b) by { ContendersOf(c, e, q); }
    hide LiveAdvanced; hide Live; hide Bucket; hide Advanced;
    BlockIndex(bs, n, i, r, k, x => Contender(c, q, x));
  }

  /** In a list without repetition, the index of a bucket's rule fixes its place inside the bucket. */
  lemma BlockIndex(bs: seq<seq<Rule>>, n: nat, i: nat, r: Rule, k: nat, stops: Rule -> bool)
    requires n < |bs| && Advanced(bs[n]) && r in bs[n] && Distinct(AdvancedRules(bs))
    requires i < |AdvancedRules(bs)| && AdvancedRules(bs)[i] == r
    requires k < |bs[n]| && stops(bs[n][k])
    requires forall j :: 0 <= j < i ==> !stops(AdvancedRules(bs)[j])
    ensures exists m :: 0 <= m <= k && bs[n][m] == r
  {
    hide AdvancedRules; hide Advanced;
    var s, b := AdvancedRules(bs), bs[n];
    var start := AdvancedBlock(bs, n);
    assert s[start + k] == s[start..start + |b|][k] == b[k];
    var m :| 0 <= m < |b| && b[m] == r;
    assert s[start + m] == s[start..start + |b|][m] == r;
    assert i == start + m;
  }

  /** Go may visit any host first. */
  lemma EnumerationFrom(m: RuleMap, h: string) returns (e: Enumeration)
    requires h in m
    ensures Enumerates(e, m) && e.hosts != [] && e.hosts[0] == h
  {
    e := Enumeration([h] + Listing(m.Keys - {h}), map x | x in m :: Listing(m[x].Keys));
  }

  lemma {:induction false} BucketsPrefix(m: RuleMap, e: Enumeration, hosts: seq<string>)
    requires hosts != []
    ensures HostBuckets(m, hosts[0], PathOrder(e, hosts[0])) <= Buckets(m, e, hosts)
  {
    var front := hosts[..|hosts| - 1];
    if front == [] {
      assert Buckets(m, e, front) == [];
    } else {
      BucketsPrefix(m, e, front);
    }
  }

  /** With host h visited first, a contender of host h wins over those of other hosts. */
  lemma FirstHostWins(c: Cache, e: Enumeration, q: Request, r: Rule)
    requires Inv(c) && Enumerates(e, c.ruleMap) && e.hosts != [] && e.hosts[0] == r.host
    requires Contender(c, q, r)
    ensures Route(c, e, q).Some? && Route(c, e, q).value.host == r.host
  {
    NoRouteNoContender(c, e, q, r);
    var i := RouteIsContender(c, e, q);
    var bs := Buckets(c.ruleMap, e, e.hosts);
    var own := HostBuckets(c.ruleMap, r.host, PathOrder(e, r.host));
    BucketsPrefix(c.ruleMap, e, e.hosts);
    RuleOfBucket(c, r.host, r.path, r);
    HostBucketsFacts(c, r.host, PathOrder(e, r.host));
    assert c.ruleMap[r.host][r.path] in own && r in c.ruleMap[r.host][r.path] && Advanced(c.ruleMap[r.host][r.path]);
    forall b: seq<Rule>, x | b in own && x in b
      ensures x.host == r.host
    {
      RuleOfBucket(c, b[0].host, b[0].path, x);
    }
    hide Inv; hide Buckets; hide Enumerates; hide BucketList; hide HostBuckets; hide Route; hide LiveAdvanced;
    InPrefix(own, bs, r, i, x => Contender(c, q, x));
  }

  /** An index no later than the first stop lies among the rules of a prefix that contains a stop. */
  lemma InPrefix(own: seq<seq<Rule>>, bs: seq<seq<Rule>>, r: Rule, i: nat, stops: Rule -> bool)
    requires own <= bs && stops(r)
    requires exists b :: b in own && r in b && Advanced(b)
    requires i < |AdvancedRules(bs)| && forall j :: 0 <= j < i ==> !stops(AdvancedRules(bs)[j])
    ensures exists b :: b in own && AdvancedRules(bs)[i] in b
  {
    var s, t := AdvancedRules(bs), AdvancedRules(own);
    AdvancedRulesAppend(own, bs[|own|..]);
    assert bs == own + bs[|own|..];
    AdvancedRulesMember(own, r);
    var j :| 0 <= j < |t| && t[j] == r;
    assert s[j] == r;
    assert s[i] == t[i] && t[i] in t;
    AdvancedRulesMember(own, t[i]);
    var k :| 0 <= k < |own| && Advanced(own[k]) && t[i] in own[k];
    assert own[k] in own;
  }

  /** Two matching rules that tie are in one bucket, save for "*" beside a one-character host. */
  lemma TieSharesPlace(a: Rule, b: Rule, q: Request)
    requires Matches(a, q) && Matches(b, q) && Tied(a, b)
    ensures a.path == b.path
    ensures a.host == b.host || (a.host == "*" && |b.host| == 1) || (b.host == "*" && |a.host| == 1)
  {
    MatchesParts(a, q);
    MatchesParts(b, q);
    assert Rank(a)[0] == Rank(b)[0] && Rank(a)[1] == Rank(b)[1] && Rank(a)[2] == Rank(b)[2] && Rank(a)[3] == Rank(b)[3];
    hide Matches; hide Rank;
    HostTie(a.host, b.host, q);
    PathTie(a.path, b.path, q);
  }

  lemma HostTie(a: string, b: string, q: Request)
    requires HostMatches(a, q) && HostMatches(b, q) && WildcardHost(a) == WildcardHost(b) && |a| == |b|
    ensures a == b || (a == "*" && |b| == 1) || (b == "*" && |a| == 1)
  {
    if WildcardHost(a) {
      assert Holds(HostPrimitive(a)[0], q) && Holds(HostPrimitive(b)[0], q);
      var front := Before(q.host, '.');
      assert a[2..] == q.host[|front| + 1..] == b[2..];
      assert a == "*." + a[2..] && b == "*." + b[2..];
    } else if a != "" && a != "*" && b != "*" {
      assert Holds(HostPrimitive(a)[0], q) && Holds(HostPrimitive(b)[0], q);
    }
  }

  lemma SamePrefix(a: string, b: string, p: string)
    requires Slash(a) <= Slash(p) && Slash(b) <= Slash(p) && |a| == |b|
    ensures a == b
  {
  }

  lemma PathTie(a: string, b: string, q: Request)
    requires PathMatches(a, q) && PathMatches(b, q) && WildcardPath(a) == WildcardPath(b) && |a| == |b|
    ensures a == b
  {
    if a != "" && a != "*" && b != "*" {
      assert Holds(PathPrimitive(a)[0], q) && Holds(PathPrimitive(b)[0], q);
      if WildcardPath(a) {
        WildcardTie(a, b, q);
      }
    }
  }

  lemma WildcardTie(a: string, b: string, q: Request)
    requires |a| == |b| && |a| > 0 && a[|a| - 1] == b[|b| - 1]
    requires Slash(a[..|a| - 1]) <= Slash(q.path) && Slash(b[..|b| - 1]) <= Slash(q.path)
    ensures a == b
  {
    hide Slash;
    var n := |a| - 1;
    SamePrefix(a[..n], b[..n], q.path);
    assert a == a[..n] + [a[n]] && b == b[..n] + [b[n]];
  }

  /** Routing is independent of Go's map order exactly when all contenders of the request share a bucket. */
  lemma OrderIndependentExactly(c: Cache, q: Request)
    requires Inv(c)
    ensures OrderIndependent(c, q) <==>
            forall a, b :: Contender(c, q, a) && Contender(c, q, b) ==> SamePlace(a, b)
  {
    if forall a, b :: Contender(c, q, a) && Contender(c, q, b) ==> SamePlace(a, b) {
      forall e, e' | Enumerates(e, c.ruleMap) && Enumerates(e', c.ruleMap)
        ensures Route(c, e, q) == Route(c, e', q)
      {
        OneBucketOneRoute(c, e, e', q);
      }
    } else {
      var a, b :| Contender(c, q, a) && Contender(c, q, b) && !SamePlace(a, b);
      DifferentHostsDifferentRoutes(c, q, a, b);
    }
  }

  lemma BothRoute(c: Cache, e: Enumeration, e': Enumeration, q: Request)
    requires Inv(c) && Enumerates(e, c.ruleMap) && Enumerates(e', c.ruleMap) && Route(c, e, q).Some?
    ensures Route(c, e', q).Some?
  {
    hide *;
    ContendersOf(c, e, q);
    NoRouteNoContender(c, e', q, Route(c, e, q).value);
  }

  lemma OneBucketOneRoute(c: Cache, e: Enumeration, e': Enumeration, q: Request)
    requires Inv(c) && Enumerates(e, c.ruleMap) && Enumerates(e', c.ruleMap)
    requires forall a, b :: Contender(c, q, a) && Contender(c, q, b) ==> SamePlace(a, b)
    ensures Route(c, e, q) == Route(c, e', q)
  {
    hide Route; hide Contender; hide Inv; hide Enumerates;
    if Route(c, e, q).Some? {
      BothRoute(c, e, e', q);
    }
    if Route(c, e', q).Some? {
      BothRoute(c, e', e, q);
      ContendersOf(c, e, q);
      ContendersOf(c, e', q);
      var r, r' := Route(c, e, q).value, Route(c, e', q).value;
      var b := Bucket(c.ruleMap, r.host, r.path);
      assert SamePlace(r, r');
      BothLive(c, e, e', q, r, r');
      LiveBucketDistinct(c, r);
      var k :| 0 <= k < |b| && b[k] == r;
      var k' :| 0 <= k' < |b| && b[k'] == r';
      FirstContenderOfBucket(c, e, q, k');
      FirstContenderOfBucket(c, e', q, k);
    }
  }

  lemma LiveBucketDistinct(c: Cache, r: Rule)
    requires Inv(c) && r in Bucket(c.ruleMap, r.host, r.path)
    ensures Distinct(Bucket(c.ruleMap, r.host, r.path))
  {
  }

  lemma ContendersOf(c: Cache, e: Enumeration, q: Request)
    requires Inv(c) && Enumerates(e, c.ruleMap) && Route(c, e, q).Some?
    ensures Contender(c, q, Route(c, e, q).value)
  {
    var _ := RouteIsContender(c, e, q);
  }

  lemma BothLive(c: Cache, e: Enumeration, e': Enumeration, q: Request, r: Rule, r': Rule)
    requires Inv(c) && Enumerates(e, c.ruleMap) && Enumerates(e', c.ruleMap)
    requires Route(c, e, q) == Some(r) && Route(c, e', q) == Some(r') && SamePlace(r, r')
    ensures r in Bucket(c.ruleMap, r.host, r.path) && r' in Bucket(c.ruleMap, r.host, r.path)
  {
    ContendersOf(c, e, q);
    ContendersOf(c, e', q);
  }

  lemma DifferentHostsDifferentRoutes(c: Cache, q: Request, a: Rule, b: Rule)
    requires Inv(c) && Contender(c, q, a) && Contender(c, q, b) && !SamePlace(a, b)
    ensures !OrderIndependent(c, q)
  {
    ContendersTie(c, q, a, b);
    TieSharesPlace(a, b, q);
    RuleOfBucket(c, a.host, a.path, a);
    RuleOfBucket(c, b.host, b.path, b);
    var e := EnumerationFrom(c.ruleMap, a.host);
    var e' := EnumerationFrom(c.ruleMap, b.host);
    FirstHostWins(c, e, q, a);
    FirstHostWins(c, e', q, b);
  }

  /** No live rule has a one-character host beside a live catch-all: checked before the call, on hosts alone. */
  predicate NoOneCharacterHost(c: Cache) {
    "*" in c.ruleMap ==> forall h :: h in c.ruleMap && h != "*" ==> |h| != 1
  }

  /** Routing never depends on map order unless a one-character host stands beside the catch-all. */
  lemma RoutingIsDeterministic(c: Cache, q: Request)
    requires Inv(c) && NoOneCharacterHost(c)
    ensures OrderIndependent(c, q)
  {
    OrderIndependentExactly(c, q);
    forall a, b | Contender(c, q, a) && Contender(c, q, b)
      ensures SamePlace(a, b)
    {
      ContendersTie(c, q, a, b);
      TieSharesPlace(a, b, q);
      RuleOfBucket(c, a.host, a.path, a);
      RuleOfBucket(c, b.host, b.path, b);
    }
  }

  /** A catch-all and a one-character host of equal age tie, and Go's map order picks the backend. */
  lemma OneCharacterHostDependsOnOrder(any: Rule, one: Rule, q: Request)
    requires any == Rule(0, "n/i", "*", "/*", map[RouterCookie := "k:v"], "c", 0)
    requires one == Rule(1, "n/j", "x", "/*", map[RouterCookie := "k:v"], "d", 0)
    requires q == Request("x", "/", map["k" := "v"], map[])
    ensures !OrderIndependent(Run([PutOp(any), PutOp(one)]), q)
  {
    hide Matches; hide Run; hide Refines;
    var c := Run([PutOp(any), PutOp(one)]);
    RunRefines([PutOp(any), PutOp(one)]);
    TwoRuleCache(any, one);
    CookieConditionHolds(any, one, q);
    BothContend(c, any, one, q);
    assert any.host != one.host;
    DifferentHostsDifferentRoutes(c, q, any, one);
  }

  lemma BothContend(c: Cache, any: Rule, one: Rule, q: Request)
    requires Inv(c) && c.ruleMap == map["*" := map["/*" := [any]], "x" := map["/*" := [one]]]
    requires any.host == "*" && one.host == "x" && any.path == one.path == "/*" && any.createTime == one.createTime
    requires any.annotations == one.annotations && RouterCookie in any.annotations
    requires Matches(any, q) && Matches(one, q)
    ensures Contender(c, q, any) && Contender(c, q, one)
  {
    hide Matches; hide Inv;
    assert Rank(any) == Rank(one);
    StrictWeakOrder(any, one, any);
    hide Less; hide Rank;
    assert Bucket(c.ruleMap, any.host, any.path) == [any] && Bucket(c.ruleMap, one.host, one.path) == [one];
    assert LiveAdvanced(c, any) && LiveAdvanced(c, one);
    forall s | LiveAdvanced(c, s)
      ensures s == any || s == one
    {
      OneOfTwo(c, any, one, s);
    }
    hide LiveAdvanced;
    StrictWeakOrder(any, any, any);
    StrictWeakOrder(one, one, one);
  }

  lemma OneOfTwo(c: Cache, any: Rule, one: Rule, s: Rule)
    requires c.ruleMap == map["*" := map["/*" := [any]], "x" := map["/*" := [one]]] && Live(c, s)
    ensures s == any || s == one
  {
  }

  lemma TwoRuleCache(any: Rule, one: Rule)
    requires any.host == "*" && one.host == "x" && any.path == one.path == "/*"
    ensures Run([PutOp(any), PutOp(one)]).ruleMap == map["*" := map["/*" := [any]], "x" := map["/*" := [one]]]
  {
    var ops := [PutOp(any), PutOp(one)];
    assert ops[..1] == [PutOp(any)] && ops[..1][..0] == [];
    assert Run([]) == EMPTY_CACHE && Run(ops[..1]) == RouteRules.Put(EMPTY_CACHE, any).0;
    assert Bucket(EMPTY_CACHE.ruleMap, "*", "/*") == [] && [] + [any] == [any] && [] + [one] == [one];
    var c := RouteRules.Put(EMPTY_CACHE, any).0;
    assert c.ruleMap == map["*" := map["/*" := [any]]];
    assert Bucket(c.ruleMap, "x", "/*") == [];
    assert Run(ops) == RouteRules.Put(c, one).0;
  }

  lemma CookieConditionHolds(any: Rule, one: Rule, q: Request)
    requires any.host == "*" && one.host == "x" && any.path == one.path == "/*"
    requires any.annotations == one.annotations == map[RouterCookie := "k:v"]
    requires q == Request("x", "/", map["k" := "v"], map[])
    ensures Matches(any, q) && Matches(one, q)
  {
    hide GetRouteExpression;
    CookieParses(any.annotations);
    assert "/*"[..1] == "/" && PathPrimitive("/*") == [PathElementPrefixIn("/")];
    assert Slash("/") <= Slash(q.path);
    var prefix, cookie := PathElementPrefixIn("/"), CookieValueIn("k", "v");
    assert [] + [prefix] + [cookie] == [prefix, cookie] && [HostIn("x")] + [prefix] + [cookie] == [HostIn("x"), prefix, cookie];
    assert BuildCondition(any.host, any.path, any.annotations) == Some([prefix, cookie]);
    assert BuildCondition(one.host, one.path, one.annotations) == Some([HostIn("x"), prefix, cookie]);
  }

  lemma CookieParses(a: Annots)
    requires a == map[RouterCookie := "k:v"]
    ensures GetRouteExpression(a) == Some([CookieValueIn("k", "v")])
  {
    hide ParseKeyValue;
    KeyValueParses();
    EmptyIsAbsent();
    assert [CookieValueIn("k", "v")] + [] == [CookieValueIn("k", "v")];
  }

  lemma EmptyIsAbsent()
    ensures ParseKeyValue("") == KeyValue.Absent
  {
  }

  lemma KeyValueParses()
    ensures ParseKeyValue("k:v") == KeyValue("k", "v")
  {
    assert "k:v"[1..][0] == ':';
    assert IndexOf("k:v"[1..], ':') == 0;
    assert IndexOf("k:v", ':') == 1;
    assert "k:v"[..1] == "k" && "k:v"[2..] == "v";
    assert TrimSpace("k") == "k" && TrimSpace("v") == "v";
  }
}
