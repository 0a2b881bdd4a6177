/** HttpRouteRuleCache.get (routeRuleCache.go:85-132): the basic and the advanced list, for any
    order in which Go may enumerate the two levels of the rule map. */
module RuleLists {
  import opened Multimaps
  import opened Annotations
  import opened RouteRules
  import opened RuleOrder

  const ADVANCED_MODE := "ADVANCED_MODE"

  /** One possible iteration of get: the hosts in order, and for each host its paths in order. */
  datatype Enumeration = Enumeration(hosts: seq<string>, paths: map<string, seq<string>>)

  ghost predicate Enumerates(e: Enumeration, m: RuleMap) {
    Lists(e.hosts, m.Keys) && forall h :: h in m ==> h in e.paths && Lists(e.paths[h], m[h].Keys)
  }

  function PathOrder(e: Enumeration, h: string): seq<string> {
    if h in e.paths then e.paths[h] else []
  }

  /** The buckets of one host, then of all hosts, in iteration order. */
  function HostBuckets(m: RuleMap, h: string, paths: seq<string>): seq<seq<Rule>> {
    seq(|paths|, i requires 0 <= i < |paths| => Bucket(m, h, paths[i]))
  }

  function Buckets(m: RuleMap, e: Enumeration, hosts: seq<string>): seq<seq<Rule>> {
    if hosts == [] then [] else
      var h := hosts[|hosts| - 1];
      Buckets(m, e, hosts[..|hosts| - 1]) + HostBuckets(m, h, PathOrder(e, h))
  }

  /** A single rule without advanced conditions. */
  predicate Basic(b: seq<Rule>) {
    |b| == 1 && Priority(b[0].annotations) == PRIORITY_BASIC
  }

  predicate Advanced(b: seq<Rule>) {
    b != [] && !Basic(b)
  }

  /** The bucket's own rule, or a copy of its first rule that points to the advanced list. */
  function BasicEntry(b: seq<Rule>): Rule
    requires b != []
  {
    if Basic(b) then b[0] else b[0].(cluster := ADVANCED_MODE)
  }

  function BasicRules(bs: seq<seq<Rule>>): seq<Rule> {
    if bs == [] then [] else
      var b := bs[|bs| - 1];
      BasicRules(bs[..|bs| - 1]) + if b == [] then [] else [BasicEntry(b)]
  }

  function AdvancedRules(bs: seq<seq<Rule>>): seq<Rule> {
    if bs == [] then [] else
      var b := bs[|bs| - 1];
      AdvancedRules(bs[..|bs| - 1]) + if Advanced(b) then b else []
  }

  function GetBasic(m: RuleMap, e: Enumeration): seq<Rule> {
    BasicRules(Buckets(m, e, e.hosts))
  }

  function GetAdvanced(m: RuleMap, e: Enumeration): seq<Rule> {
    StableSort(AdvancedRules(Buckets(m, e, e.hosts)))
  }

  // ---------------------------------------------------------------- the buckets visited

  /** The host and path a non-empty bucket is filed under. */
  function Place(b: seq<Rule>): (string, string)
    requires b != []
  {
    (b[0].host, b[0].path)
  }

  /** bs are buckets of the cache, no two of the same place. */
  ghost predicate BucketList(c: Cache, bs: seq<seq<Rule>>) {
    && (forall i :: 0 <= i < |bs| ==> bs[i] != [] && bs[i] == Bucket(c.ruleMap, bs[i][0].host, bs[i][0].path))
    && (forall i, j :: 0 <= i < j < |bs| ==> Place(bs[i]) != Place(bs[j]))
  }

  lemma PlaceOfBucket(c: Cache, h: string, p: string)
    requires Inv(c) && h in c.ruleMap && p in c.ruleMap[h]
    ensures c.ruleMap[h][p] != [] && Place(c.ruleMap[h][p]) == (h, p)
    ensures Bucket(c.ruleMap, h, p) == c.ruleMap[h][p]
  {
  }

  lemma HostBucketsFacts(c: Cache, h: string, paths: seq<string>)
    requires Inv(c) && h in c.ruleMap && Lists(paths, c.ruleMap[h].Keys)
    ensures BucketList(c, HostBuckets(c.ruleMap, h, paths))
    ensures forall b: seq<Rule> :: b in HostBuckets(c.ruleMap, h, paths) ==> b != [] && b[0].host == h
    ensures forall p :: p in c.ruleMap[h] ==> c.ruleMap[h][p] in HostBuckets(c.ruleMap, h, paths)
  {
    var bs := HostBuckets(c.ruleMap, h, paths);
    forall i | 0 <= i < |paths|
      ensures bs[i] != [] && Place(bs[i]) == (h, paths[i])
    {
      assert paths[i] in paths;
      PlaceOfBucket(c, h, paths[i]);
    }
    forall p | p in c.ruleMap[h]
      ensures c.ruleMap[h][p] in bs
    {
      var i :| 0 <= i < |paths| && paths[i] == p;
      assert bs[i] == c.ruleMap[h][p];
    }
  }

  /** Visiting some distinct hosts visits each of their buckets once. */
  lemma {:induction false} BucketsFacts(c: Cache, e: Enumeration, hosts: seq<string>)
    requires Inv(c)
    requires forall h :: h in hosts ==> h in c.ruleMap && h in e.paths && Lists(e.paths[h], c.ruleMap[h].Keys)
    requires forall i, j :: 0 <= i < j < |hosts| ==> hosts[i] != hosts[j]
    ensures BucketList(c, Buckets(c.ruleMap, e, hosts))
    ensures forall b: seq<Rule> :: b in Buckets(c.ruleMap, e, hosts) ==> b != [] && b[0].host in hosts
    ensures forall h, p :: h in hosts && p in c.ruleMap[h] ==> c.ruleMap[h][p] in Buckets(c.ruleMap, e, hosts)
  {
    if hosts != [] {
      var front, h := hosts[..|hosts| - 1], hosts[|hosts| - 1];
      assert hosts == front + [h];
      BucketsFacts(c, e, front);
      HostBucketsFacts(c, h, PathOrder(e, h));
      AppendBucketLists(c, Buckets(c.ruleMap, e, front), HostBuckets(c.ruleMap, h, PathOrder(e, h)), h);
    }
  }

  lemma AppendBucketLists(c: Cache, a: seq<seq<Rule>>, b: seq<seq<Rule>>, h: string)
    requires BucketList(c, a) && BucketList(c, b)
    requires forall x: seq<Rule> :: x in a ==> x != [] && x[0].host != h
    requires forall x: seq<Rule> :: x in b ==> x != [] && x[0].host == h
    ensures BucketList(c, a + b)
  {
  }

  lemma AllBuckets(c: Cache, e: Enumeration)
    requires Inv(c) && Enumerates(e, c.ruleMap)
    ensures BucketList(c, Buckets(c.ruleMap, e, e.hosts))
    ensures forall h, p :: h in c.ruleMap && p in c.ruleMap[h] ==> c.ruleMap[h][p] in Buckets(c.ruleMap, e, e.hosts)
  {
    BucketsFacts(c, e, e.hosts);
  }

  // ---------------------------------------------------------------- what the lists contain

  lemma {:induction false} BasicRulesAt(bs: seq<seq<Rule>>)
    requires forall i :: 0 <= i < |bs| ==> bs[i] != []
    ensures |BasicRules(bs)| == |bs|
    ensures forall i :: 0 <= i < |bs| ==> BasicRules(bs)[i] == BasicEntry(bs[i])
  {
    if bs != [] {
      BasicRulesAt(bs[..|bs| - 1]);
    }
  }

  lemma {:induction false} AdvancedRulesMember(bs: seq<seq<Rule>>, r: Rule)
    ensures r in AdvancedRules(bs) <==> exists i :: 0 <= i < |bs| && Advanced(bs[i]) && r in bs[i]
  {
    if bs != [] {
      AdvancedRulesMember(bs[..|bs| - 1], r);
    }
  }

  lemma {:induction false} AdvancedRulesAppend(a: seq<seq<Rule>>, b: seq<seq<Rule>>)
    ensures AdvancedRules(a + b) == AdvancedRules(a) + AdvancedRules(b)
  {
    if b == [] {
      assert a + b == a;
    } else {
      AdvancedRulesAppend(a, b[..|b| - 1]);
      assert (a + b)[..|a + b| - 1] == a + b[..|b| - 1];
    }
  }

  /** An advanced bucket is a contiguous piece of the unsorted advanced list. */
  lemma AdvancedBlock(bs: seq<seq<Rule>>, i: nat) returns (start: nat)
    requires i < |bs| && Advanced(bs[i])
    ensures start + |bs[i]| <= |AdvancedRules(bs)|
    ensures AdvancedRules(bs)[start..start + |bs[i]|] == bs[i]
    ensures i == 0 ==> start == 0
  {
    start := |AdvancedRules(bs[..i])|;
    assert bs == bs[..i + 1] + bs[i + 1..];
    AdvancedRulesAppend(bs[..i + 1], bs[i + 1..]);
    assert bs[..i + 1][..i] == bs[..i];
  }

  /** A live rule that get puts on the advanced list. */
  predicate LiveAdvanced(c: Cache, r: Rule) {
    Live(c, r) && Advanced(Bucket(c.ruleMap, r.host, r.path))
  }

  lemma RuleOfBucket(c: Cache, h: string, p: string, r: Rule)
    requires Inv(c) && r in Bucket(c.ruleMap, h, p)
    ensures r.host == h && r.path == p && Live(c, r) && h in c.ruleMap && p in c.ruleMap[h]
  {
  }

  lemma AdvancedExactly(c: Cache, e: Enumeration, r: Rule)
    requires Inv(c) && Enumerates(e, c.ruleMap)
    ensures r in AdvancedRules(Buckets(c.ruleMap, e, e.hosts)) <==> LiveAdvanced(c, r)
    ensures r in GetAdvanced(c.ruleMap, e) <==> LiveAdvanced(c, r)
  {
    var bs := Buckets(c.ruleMap, e, e.hosts);
    AllBuckets(c, e);
    AdvancedRulesMember(bs, r);
    if r in AdvancedRules(bs) {
      var i :| 0 <= i < |bs| && Advanced(bs[i]) && r in bs[i];
      RuleOfBucket(c, bs[i][0].host, bs[i][0].path, r);
    }
    if LiveAdvanced(c, r) {
      RuleOfBucket(c, r.host, r.path, r);
      assert c.ruleMap[r.host][r.path] in bs;
    }
    SortFacts(AdvancedRules(bs));
    assert r in GetAdvanced(c.ruleMap, e) <==> r in multiset(GetAdvanced(c.ruleMap, e));
    assert r in AdvancedRules(bs) <==> r in multiset(AdvancedRules(bs));
  }

  predicate Distinct(s: seq<Rule>) {
    forall i, j :: 0 <= i < j < |s| ==> s[i] != s[j]
  }

  lemma BucketDistinct(c: Cache, b: seq<Rule>)
    requires Inv(c) && b != [] && b == Bucket(c.ruleMap, b[0].host, b[0].path)
    ensures Distinct(b) && forall r :: r in b ==> (r.host, r.path) == Place(b)
  {
  }

  lemma {:induction false} AdvancedDistinct(c: Cache, bs: seq<seq<Rule>>)
    requires Inv(c) && BucketList(c, bs)
    ensures Distinct(AdvancedRules(bs))
  {
    if bs != [] {
      var front, b := bs[..|bs| - 1], bs[|bs| - 1];
      AdvancedDistinct(c, front);
      var a := AdvancedRules(front);
      BucketDistinct(c, b);
      hide Inv; hide KeyOf;
      forall i | 0 <= i < |a|
        ensures a[i] !in b
      {
        AdvancedRulesMember(front, a[i]);
        assert a[i] in a;
        var k :| 0 <= k < |front| && Advanced(front[k]) && a[i] in front[k];
        BucketDistinct(c, front[k]);
        assert Place(bs[k]) != Place(bs[|bs| - 1]);
      }
    }
  }

  lemma {:induction false} DistinctIsMultiset(s: seq<Rule>)
    ensures Distinct(s) <==> forall r :: multiset(s)[r] <= 1
  {
    if s != [] {
      var front, last := s[..|s| - 1], s[|s| - 1];
      DistinctIsMultiset(front);
      assert s == front + [last];
      assert Distinct(s) <==> Distinct(front) && last !in front;
      assert multiset(s) == multiset(front) + multiset{last};
      assert last in front <==> multiset(front)[last] > 0;
      if forall r :: multiset(s)[r] <= 1 {
        forall r
          ensures multiset(front)[r] <= 1
        {
          assert multiset(s)[r] <= 1;
        }
        assert multiset(s)[last] <= 1;
      }
    }
  }

  /** The basic list has exactly one entry for each host and path with a bucket. */
  ghost predicate OneEntryPerPlace(c: Cache, basic: seq<Rule>) {
    && (forall i :: 0 <= i < |basic| ==>
          var b := Bucket(c.ruleMap, basic[i].host, basic[i].path); b != [] && basic[i] == BasicEntry(b))
    && (forall i, j :: 0 <= i < j < |basic| ==> (basic[i].host, basic[i].path) != (basic[j].host, basic[j].path))
    && (forall h, p :: h in c.ruleMap && p in c.ruleMap[h] ==>
          exists i :: 0 <= i < |basic| && basic[i].host == h && basic[i].path == p)
  }

  lemma BasicPlaces(bs: seq<seq<Rule>>)
    requires forall i :: 0 <= i < |bs| ==> bs[i] != []
    ensures var basic := BasicRules(bs);
            |basic| == |bs| && forall i :: 0 <= i < |bs| ==> basic[i] == BasicEntry(bs[i]) && (basic[i].host, basic[i].path) == Place(bs[i])
  {
    hide BasicRules;
    BasicRulesAt(bs);
  }

  lemma BasicFromBuckets(c: Cache, bs: seq<seq<Rule>>)
    requires BucketList(c, bs)
    requires forall h, p :: h in c.ruleMap && p in c.ruleMap[h] ==> c.ruleMap[h][p] in bs && c.ruleMap[h][p] != [] && Place(c.ruleMap[h][p]) == (h, p)
    ensures OneEntryPerPlace(c, BasicRules(bs))
  {
    hide BasicEntry; hide BasicRules;
    var basic := BasicRules(bs);
    BasicPlaces(bs);
    forall h, p | h in c.ruleMap && p in c.ruleMap[h]
      ensures exists i :: 0 <= i < |basic| && basic[i].host == h && basic[i].path == p
    {
      var i :| 0 <= i < |bs| && bs[i] == c.ruleMap[h][p];
      assert (basic[i].host, basic[i].path) == (h, p);
    }
    BasicBuckets(c, bs, basic);
  }

  lemma BasicBuckets(c: Cache, bs: seq<seq<Rule>>, basic: seq<Rule>)
    requires BucketList(c, bs) && |basic| == |bs|
    requires forall i :: 0 <= i < |bs| ==> basic[i] == BasicEntry(bs[i]) && (basic[i].host, basic[i].path) == Place(bs[i])
    ensures forall i :: 0 <= i < |basic| ==>
              var b := Bucket(c.ruleMap, basic[i].host, basic[i].path); b != [] && basic[i] == BasicEntry(b)
    ensures forall i, j :: 0 <= i < j < |basic| ==> (basic[i].host, basic[i].path) != (basic[j].host, basic[j].path)
  {
  }

  lemma BasicConserves(c: Cache, e: Enumeration)
    requires Inv(c) && Enumerates(e, c.ruleMap)
    ensures OneEntryPerPlace(c, GetBasic(c.ruleMap, e))
  {
    AllBuckets(c, e);
    forall h, p | h in c.ruleMap && p in c.ruleMap[h]
      ensures c.ruleMap[h][p] != [] && Place(c.ruleMap[h][p]) == (h, p)
    {
      PlaceOfBucket(c, h, p);
    }
    BasicFromBuckets(c, Buckets(c.ruleMap, e, e.hosts));
  }

  /** get loses and invents nothing, whatever the iteration order. */
  lemma GetConserves(c: Cache, e: Enumeration)
    requires Inv(c) && Enumerates(e, c.ruleMap)
    ensures OneEntryPerPlace(c, GetBasic(c.ruleMap, e))
    ensures Sorted(GetAdvanced(c.ruleMap, e)) && Distinct(GetAdvanced(c.ruleMap, e))
    ensures forall r :: r in GetAdvanced(c.ruleMap, e) <==> LiveAdvanced(c, r)
  {
    hide Inv; hide Buckets; hide LiveAdvanced; hide OneEntryPerPlace; hide Enumerates;
    hide BucketList;
    hide Less;
    var bs := Buckets(c.ruleMap, e, e.hosts);
    BasicConserves(c, e);
    AllBuckets(c, e);
    AdvancedDistinct(c, bs);
    SortFacts(AdvancedRules(bs));
    DistinctIsMultiset(AdvancedRules(bs));
    DistinctIsMultiset(GetAdvanced(c.ruleMap, e));
    forall r
      ensures r in GetAdvanced(c.ruleMap, e) <==> LiveAdvanced(c, r)
    {
      AdvancedExactly(c, e, r);
    }
  }

  /** The members of the basic list do not depend on the iteration order. */
  lemma BasicMembers(c: Cache, e: Enumeration, r: Rule)
    requires Inv(c) && Enumerates(e, c.ruleMap)
    ensures r in GetBasic(c.ruleMap, e) <==>
            Bucket(c.ruleMap, r.host, r.path) != [] && r == BasicEntry(Bucket(c.ruleMap, r.host, r.path))
  {
    hide GetBasic; hide GetAdvanced; hide Inv; hide Enumerates; hide LiveAdvanced; hide BasicEntry;
    GetConserves(c, e);
    var basic := GetBasic(c.ruleMap, e);
    if r in basic {
      var i :| 0 <= i < |basic| && basic[i] == r;
    }
    if Bucket(c.ruleMap, r.host, r.path) != [] && r == BasicEntry(Bucket(c.ruleMap, r.host, r.path)) {
      var i :| 0 <= i < |basic| && basic[i].host == r.host && basic[i].path == r.path;
      assert basic[i] == r;
    }
  }

  /** Each live rule appears as itself on exactly one of the two lists. */
  lemma OnExactlyOneList(c: Cache, e: Enumeration, r: Rule)
    requires Inv(c) && Enumerates(e, c.ruleMap) && Live(c, r) && r.cluster != ADVANCED_MODE
    ensures r in GetBasic(c.ruleMap, e) <==> r !in GetAdvanced(c.ruleMap, e)
  {
    hide Inv; hide Enumerates; hide GetBasic; hide GetAdvanced; hide Bucket;
    BasicMembers(c, e, r);
    AdvancedExactly(c, e, r);
  }
}
