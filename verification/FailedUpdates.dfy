/** A failed ServerDataConfig.UpdateIngress: which live rules it costs, and exactly when the rendered route
    table no longer matches the rule cache. */
module FailedUpdates {
  import opened Multimaps
  import opened Kube
  import opened Names
  import opened RouteRules
  import opened RuleLists
  import opened Routing
  import opened ServerData
  import opened ServerInvariants
  import opened Admission

  // ---------------------------------------------------------------- which rules are lost

  /** A path before the first blocked one claims the key of r for an older ingress. */
  ghost predicate Claimed(c: Cache, ingress: Ingress, r: Rule) {
    var paths := HostPaths(ingress.rules);
    ingress.creationTimestamp < r.createTime && Reaches(ingress, paths, FirstBlocked(c, ingress, paths), KeyOf(r))
  }

  /** Caching an ingress's paths in any cache c0 costs, of the other ingresses' rules, exactly the claimed ones. */
  lemma CachingTakes(c0: Cache, ingress: Ingress, a: nat, r: Rule)
    requires RouteRules.Inv(c0) && r.ingress != IngressName(ingress)
    ensures RouteRules.Inv(UpdateCache(c0, ingress, HostPaths(ingress.rules), a).0)
    ensures Live(UpdateCache(c0, ingress, HostPaths(ingress.rules), a).0, r) <==> Live(c0, r) && !Claimed(c0, ingress, r)
  {
    hide RouteRules.Inv; hide Live; hide LiveAt; hide KeyOf; hide UpdateCache; hide HostPaths; hide Reaches;
    var c := UpdateCache(c0, ingress, HostPaths(ingress.rules), a).0;
    UpdateCacheFacts(c0, ingress, HostPaths(ingress.rules), a);
    UpdateCacheAt(c0, ingress, HostPaths(ingress.rules), a, KeyOf(r));
    LiveRuleAtItsKey(c0, r);
    LiveRuleAtItsKey(c, r);
  }

  lemma CachingLoses(s: ServerState, ingress: Ingress, r: Rule)
    requires RouteRules.Inv(s.cache) && r.ingress != IngressName(ingress)
    ensures Live(AfterUpdateCache(s, ingress).0.cache, r) <==> Live(s.cache, r) && !Claimed(Cleared(s, ingress), ingress, r)
  {
    hide RouteRules.Inv; hide Live; hide AfterUpdateCache; hide UpdateCache; hide HostPaths; hide Claimed; hide RouteRules.Delete;
    AfterCaching(s, ingress);
    DeleteLive(s.cache, IngressName(ingress), r);
    CachingTakes(Cleared(s, ingress), ingress, s.nextAddress, r);
  }

  /** A live rule r does not survive a failed update: it was the ingress's own, or a path that was not yet blocked
      claimed its key with an earlier creation time and was then withdrawn. */
  ghost predicate Lost(s: ServerState, ingress: Ingress, r: Rule) {
    r.ingress == IngressName(ingress) || Claimed(Cleared(s, ingress), ingress, r)
  }

  lemma FailedUpdateLosesExactly(s: ServerState, defaultBackend: string, ingress: Ingress, how: Rendering, r: Rule)
    requires RouteRules.Inv(s.cache) && ingress.rules != [] && !UpdateIngress(s, defaultBackend, ingress, how).1
    ensures Live(UpdateIngress(s, defaultBackend, ingress, how).0.cache, r) <==> Live(s.cache, r) && !Lost(s, ingress, r)
  {
    hide RouteRules.Inv; hide Live; hide RouteRules.Delete; hide AfterUpdateCache; hide Render; hide Configured; hide Claimed;
    AfterUpdateCacheFacts(s, ingress);
    DeleteLive(AfterUpdateCache(s, ingress).0.cache, IngressName(ingress), r);
    if r.ingress != IngressName(ingress) {
      CachingLoses(s, ingress, r);
    }
  }

  // ---------------------------------------------------------------- shrinking buckets

  predicate SubSeq<T(==)>(a: seq<T>, b: seq<T>) {
    if a == [] then true
    else if b == [] then false
    else if a[|a| - 1] == b[|b| - 1] then SubSeq(a[..|a| - 1], b[..|b| - 1])
    else SubSeq(a, b[..|b| - 1])
  }

  lemma {:induction false} SubSeqLength<T>(a: seq<T>, b: seq<T>)
    requires SubSeq(a, b)
    ensures |a| <= |b| && (|a| == |b| ==> a == b) && forall x :: x in a ==> x in b
  {
    if a != [] {
      var front := b[..|b| - 1];
      assert b == front + [b[|b| - 1]];
      if a[|a| - 1] == b[|b| - 1] {
        SubSeqLength(a[..|a| - 1], front);
        assert a == a[..|a| - 1] + [a[|a| - 1]];
      } else {
        SubSeqLength(a, front);
      }
    }
  }

  lemma {:induction false} SubSeqMore<T>(a: seq<T>, b: seq<T>, x: T)
    requires SubSeq(a, b)
    ensures SubSeq(a, b + [x])
    ensures a != [] ==> SubSeq(a[..|a| - 1], b)
    decreases |b|
  {
    assert (b + [x])[..|b|] == b;
    if a != [] {
      assert b == b[..|b| - 1] + [b[|b| - 1]];
      if a[|a| - 1] == b[|b| - 1] {
        SubSeqMore(a[..|a| - 1], b[..|b| - 1], b[|b| - 1]);
      } else {
        SubSeqMore(a, b[..|b| - 1], b[|b| - 1]);
        SubSeqMore(a[..|a| - 1], b[..|b| - 1], b[|b| - 1]);
      }
    }
  }

  lemma {:induction false} SubSeqTransitive<T>(a: seq<T>, b: seq<T>, c: seq<T>)
    requires SubSeq(a, b) && SubSeq(b, c)
    ensures SubSeq(a, c)
    decreases |b| + |c|
  {
    if a != [] {
      if b[|b| - 1] == c[|c| - 1] {
        var b', c' := b[..|b| - 1], c[..|c| - 1];
        assert c == c' + [c[|c| - 1]];
        if a[|a| - 1] == b[|b| - 1] {
          SubSeqTransitive(a[..|a| - 1], b', c');
        } else {
          SubSeqTransitive(a, b', c');
          SubSeqMore(a, c', c[|c| - 1]);
        }
      } else {
        SubSeqTransitive(a, b, c[..|c| - 1]);
        assert c == c[..|c| - 1] + [c[|c| - 1]];
        SubSeqMore(a, c[..|c| - 1], c[|c| - 1]);
      }
    }
  }

  lemma {:induction false} SubSeqReflexive<T>(a: seq<T>)
    ensures SubSeq(a, a)
  {
    if a != [] {
      SubSeqReflexive(a[..|a| - 1]);
    }
  }

  lemma {:induction false} DelRuleSubSeq(b: seq<Rule>, ingress: string)
    ensures SubSeq(DelRule(b, ingress), b)
  {
    if b != [] {
      var front, last := b[..|b| - 1], b[|b| - 1];
      DelRuleSubSeq(front, ingress);
      assert b == front + [last];
      if last.ingress != ingress {
        assert DelRule(b, ingress)[..|DelRule(b, ingress)| - 1] == DelRule(front, ingress);
      } else {
        SubSeqMore(DelRule(front, ingress), front, last);
        assert DelRule(b, ingress) == DelRule(front, ingress);
      }
    }
  }

  /** Putting a rule of the ingress at position i takes away nothing but the rule that stood there. */
  lemma {:induction false} DelRuleReplaced(b: seq<Rule>, i: nat, rule: Rule, ingress: string)
    requires i < |b| && rule.ingress == ingress
    ensures SubSeq(DelRule(b[i := rule], ingress), DelRule(b, ingress))
  {
    var front, last := b[..|b| - 1], b[|b| - 1];
    var b' := b[i := rule];
    var d := DelRule(front, ingress);
    if i == |b| - 1 {
      assert b'[..|b'| - 1] == front;
      SubSeqReflexive(d);
      SubSeqMore(d, d, last);
      assert DelRule(b', ingress) == d;
      assert last.ingress == ingress ==> DelRule(b, ingress) == d;
    } else {
      assert b'[..|b'| - 1] == front[i := rule];
      DelRuleReplaced(front, i, rule, ingress);
      var d' := DelRule(front[i := rule], ingress);
      if last.ingress != ingress {
        assert (d' + [last])[..|d'|] == d' && (d + [last])[..|d|] == d;
      } else {
        assert d' + [] == d' && d + [] == d;
      }
    }
  }

  /** The rules of other ingresses in a bucket only ever become fewer. */
  lemma {:induction false} UpdateCacheShrinks(c: Cache, ingress: Ingress, paths: seq<(string, HttpPath)>, address: nat, h: string, p: string)
    requires RouteRules.Inv(c)
    ensures SubSeq(DelRule(Bucket(UpdateCache(c, ingress, paths, address).0.ruleMap, h, p), IngressName(ingress)),
                   DelRule(Bucket(c.ruleMap, h, p), IngressName(ingress)))
  {
    var name := IngressName(ingress);
    var d := DelRule(Bucket(c.ruleMap, h, p), name);
    if paths == [] {
      SubSeqReflexive(d);
    } else {
      var front, last := paths[..|paths| - 1], paths[|paths| - 1];
      var (c1, ok) := UpdateCache(c, ingress, front, address);
      UpdateCacheShrinks(c, ingress, front, address, h, p);
      if ok && CheckHost(last.0) && CheckPath(last.1.path) {
        var rule := RuleOf(ingress, last.0, last.1, address + |paths| - 1);
        hide RouteRules.Inv;
        PutShrinks(c1, rule, h, p);
        SubSeqTransitive(DelRule(Bucket(RouteRules.Put(c1, rule).0.ruleMap, h, p), name), DelRule(Bucket(c1.ruleMap, h, p), name), d);
      }
    }
  }

  lemma PutShrinks(c: Cache, rule: Rule, h: string, p: string)
    ensures SubSeq(DelRule(Bucket(RouteRules.Put(c, rule).0.ruleMap, h, p), rule.ingress), DelRule(Bucket(c.ruleMap, h, p), rule.ingress))
  {
    var b := Bucket(c.ruleMap, rule.host, rule.path);
    var i := Find(b, KeyOf(rule).cookie, KeyOf(rule).header);
    SubSeqReflexive(DelRule(Bucket(c.ruleMap, h, p), rule.ingress));
    if i == |b| || rule.createTime < b[i].createTime {
      BucketAfterSet(c.ruleMap, rule.host, rule.path, if i == |b| then b + [rule] else b[i := rule], h, p);
      if h == rule.host && p == rule.path {
        if i == |b| {
          assert (b + [rule])[..|b|] == b;
          var d := DelRule(b, rule.ingress);
          assert DelRule(b + [rule], rule.ingress) == d + [] == d;
        } else {
          DelRuleReplaced(b, i, rule, rule.ingress);
        }
      }
    }
  }

  lemma FailedUpdateShrinks(s: ServerState, defaultBackend: string, ingress: Ingress, how: Rendering, h: string, p: string)
    requires RouteRules.Inv(s.cache) && ingress.rules != [] && !UpdateIngress(s, defaultBackend, ingress, how).1
    ensures SubSeq(Bucket(UpdateIngress(s, defaultBackend, ingress, how).0.cache.ruleMap, h, p), Bucket(s.cache.ruleMap, h, p))
  {
    hide RouteRules.Inv; hide RouteRules.Delete; hide Render; hide Configured; hide HostPaths; hide UpdateCache; hide DelRule; hide SubSeq; hide Bucket; hide Live;
    var name := IngressName(ingress);
    if name !in s.cache.ingress2Rule {
      DeleteUnindexed(s.cache, name);
    }
    var deleted := RouteRules.Delete(s.cache, name);
    DeleteKeepsInv(s.cache, name);
    AfterUpdateCacheFacts(s, ingress);
    var c := AfterUpdateCache(s, ingress).0.cache;
    var b, b1 := Bucket(s.cache.ruleMap, h, p), Bucket(deleted.ruleMap, h, p);
    BucketAfterDelete(s.cache, name, h, p);
    BucketAfterDelete(c, name, h, p);
    UpdateCacheShrinks(deleted, ingress, HostPaths(ingress.rules), s.nextAddress, h, p);
    DelRuleSubSeq(b1, name);
    DelRuleSubSeq(b, name);
    SubSeqTransitive(DelRule(Bucket(c.ruleMap, h, p), name), DelRule(b1, name), b1);
    SubSeqTransitive(DelRule(Bucket(c.ruleMap, h, p), name), b1, b);
  }

  // ---------------------------------------------------------------- counting a rendered table

  lemma {:induction false} DistinctCount<T>(s: seq<T>, elements: set<T>)
    requires (forall i, j :: 0 <= i < j < |s| ==> s[i] != s[j]) && (forall x :: x in s <==> x in elements)
    ensures |s| == |elements|
  {
    if s == [] {
      assert elements == {};
    } else {
      var front, last := s[..|s| - 1], s[|s| - 1];
      assert s == front + [last];
      assert forall x :: x in front <==> x in elements - {last} by {
        forall x | x in front
          ensures x != last
        {
          var i :| 0 <= i < |front| && front[i] == x;
          assert s[i] != s[|s| - 1];
        }
      }
      DistinctCount(front, elements - {last});
    }
  }

  function AdvancedSet(c: Cache): set<Rule> {
    set h, p, r | h in c.ruleMap && p in c.ruleMap[h] && r in c.ruleMap[h][p] && LiveAdvanced(c, r) :: r
  }

  lemma BasicCount(c: Cache, e: Enumeration)
    requires RouteRules.Inv(c) && Enumerates(e, c.ruleMap)
    ensures |GetBasic(c.ruleMap, e)| == |BucketKeys(c.ruleMap)|
  {
    BasicConserves(c, e);
    PlacesCount(c, GetBasic(c.ruleMap, e));
  }

  lemma PlacesCount(c: Cache, basic: seq<Rule>)
    requires OneEntryPerPlace(c, basic)
    ensures |basic| == |BucketKeys(c.ruleMap)|
  {
    hide BasicEntry;
    var places := seq(|basic|, i requires 0 <= i < |basic| => (basic[i].host, basic[i].path));
    forall i | 0 <= i < |basic|
      ensures places[i] in BucketKeys(c.ruleMap)
    {
      assert Bucket(c.ruleMap, basic[i].host, basic[i].path) != [];
    }
    forall x | x in BucketKeys(c.ruleMap)
      ensures x in places
    {
      var i :| 0 <= i < |basic| && basic[i].host == x.0 && basic[i].path == x.1;
      assert places[i] == x;
    }
    forall i, j | 0 <= i < j < |places|
      ensures places[i] != places[j]
    {
      assert (basic[i].host, basic[i].path) != (basic[j].host, basic[j].path);
    }
    hide OneEntryPerPlace; hide BucketKeys;
    DistinctCount(places, BucketKeys(c.ruleMap));
  }

  lemma AdvancedCount(c: Cache, e: Enumeration)
    requires RouteRules.Inv(c) && Enumerates(e, c.ruleMap)
    ensures |GetAdvanced(c.ruleMap, e)| == |AdvancedSet(c)|
  {
    GetConserves(c, e);
    var advanced := GetAdvanced(c.ruleMap, e);
    forall r
      ensures r in advanced <==> r in AdvancedSet(c)
    {
      AdvancedExactly(c, e, r);
      if LiveAdvanced(c, r) {
        RuleOfBucket(c, r.host, r.path, r);
        assert r in c.ruleMap[r.host][r.path];
      }
    }
    hide GetBasic; hide GetAdvanced; hide RouteRules.Inv; hide Enumerates; hide LiveAdvanced; hide AdvancedSet;
    DistinctCount(advanced, AdvancedSet(c));
  }

  lemma {:induction false} AdvancedFilesCount(rules: seq<Rule>)
    requires AdvancedFiles(rules).Some?
    ensures |AdvancedFiles(rules).value| == |rules|
  {
    if rules != [] {
      AdvancedFilesCount(rules[..|rules| - 1]);
      hide BuildCondition;
    }
  }

  /** The size of a rendered table counts the buckets and the advanced rules. */
  lemma TableCount(c: Cache, defaultBackend: string, e: Enumeration)
    requires RouteRules.Inv(c) && Enumerates(e, c.ruleMap) && Render(c, defaultBackend, e).Some?
    ensures var t := Render(c, defaultBackend, e).value;
            && |t.basic| == |BucketKeys(c.ruleMap)|
            && |t.advanced| == |AdvancedSet(c)| + if defaultBackend != "" && BucketKeys(c.ruleMap) != {} then 1 else 0
  {
    BasicCount(c, e);
    AdvancedCount(c, e);
    AdvancedFilesCount(GetAdvanced(c.ruleMap, e));
    var basic, advanced := GetBasic(c.ruleMap, e), GetAdvanced(c.ruleMap, e);
    assert AdvancedSet(c) != {} ==> BucketKeys(c.ruleMap) != {} by {
      if r :| r in AdvancedSet(c) {
        assert (r.host, r.path) in BucketKeys(c.ruleMap) by { RuleOfBucket(c, r.host, r.path, r); }
      }
    }
    hide GetBasic; hide GetAdvanced; hide RouteRules.Inv; hide Enumerates; hide AdvancedFiles; hide AdvancedSet; hide BucketKeys; hide DefaultClusterName;
    assert advanced != [] ==> |AdvancedSet(c)| != 0;
  }

  // ---------------------------------------------------------------- exactly when the table is stale

  /** The route table is a rendering of the rule cache, for some iteration order. */
  ghost predicate InSync(s: ServerState, defaultBackend: string) {
    exists e :: Enumerates(e, s.cache.ruleMap) && Render(s.cache, defaultBackend, e) == Some(s.routeTable)
  }

  ghost predicate Shrunk(c: Cache, c': Cache) {
    forall h, p :: SubSeq(Bucket(c'.ruleMap, h, p), Bucket(c.ruleMap, h, p))
  }

  /** A rule that is gone from a shrunk cache leaves fewer buckets or fewer advanced rules behind. */
  lemma LossShows(c: Cache, c': Cache, r: Rule)
    requires RouteRules.Inv(c) && RouteRules.Inv(c') && Shrunk(c, c')
    requires Live(c, r) && !Live(c', r)
    ensures |BucketKeys(c'.ruleMap)| < |BucketKeys(c.ruleMap)| || (BucketKeys(c'.ruleMap) == BucketKeys(c.ruleMap) && |AdvancedSet(c')| < |AdvancedSet(c)|)
  {
    var keys, keys' := BucketKeys(c.ruleMap), BucketKeys(c'.ruleMap);
    forall x | x in keys'
      ensures x in keys
    {
      BucketSurvives(c, c', x.0, x.1);
    }
    if keys' != keys {
      SmallerSet(keys', keys);
    } else {
      RuleOfBucket(c, r.host, r.path, r);
      assert (r.host, r.path) in keys;
      StillAdvanced(c, c', r);
      forall x | x in AdvancedSet(c')
        ensures x in AdvancedSet(c)
      {
        AdvancedBefore(c, c', x);
      }
      assert r in AdvancedSet(c) && r !in AdvancedSet(c');
      SmallerSet(AdvancedSet(c'), AdvancedSet(c));
    }
  }

  lemma SmallerSet<T>(a: set<T>, b: set<T>)
    requires a <= b && a != b
    ensures |a| < |b|
  {
    var x :| x in b && x !in a;
    assert a <= b - {x};
    SubsetCount(a, b - {x});
  }

  lemma {:induction false} SubsetCount<T>(a: set<T>, b: set<T>)
    requires a <= b
    ensures |a| <= |b|
  {
    if a != {} {
      var x :| x in a;
      SubsetCount(a - {x}, b - {x});
    }
  }

  lemma BucketSurvives(c: Cache, c': Cache, h: string, p: string)
    requires RouteRules.Inv(c') && Shrunk(c, c') && (h, p) in BucketKeys(c'.ruleMap)
    ensures (h, p) in BucketKeys(c.ruleMap)
  {
    var b, b' := Bucket(c.ruleMap, h, p), Bucket(c'.ruleMap, h, p);
    PlaceOfBucket(c', h, p);
    assert SubSeq(b', b);
    SubSeqLength(b', b);
  }

  lemma StillAdvanced(c: Cache, c': Cache, r: Rule)
    requires RouteRules.Inv(c) && RouteRules.Inv(c') && Shrunk(c, c') && Live(c, r) && !Live(c', r)
    requires (r.host, r.path) in BucketKeys(c'.ruleMap)
    ensures r in AdvancedSet(c) && r !in AdvancedSet(c')
  {
    var b, b' := Bucket(c.ruleMap, r.host, r.path), Bucket(c'.ruleMap, r.host, r.path);
    PlaceOfBucket(c', r.host, r.path);
    assert SubSeq(b', b);
    SubSeqLength(b', b);
    RuleOfBucket(c, r.host, r.path, r);
    hide RouteRules.Inv; hide SubSeq; hide Shrunk;
    assert b' != b && |b| >= 2;
    InAdvancedSet(c, r);
    InAdvancedSet(c', r);
  }

  lemma InAdvancedSet(c: Cache, r: Rule)
    ensures r in AdvancedSet(c) <==> LiveAdvanced(c, r)
  {
  }

  lemma AdvancedBefore(c: Cache, c': Cache, x: Rule)
    requires RouteRules.Inv(c) && RouteRules.Inv(c') && Shrunk(c, c') && x in AdvancedSet(c')
    ensures x in AdvancedSet(c)
  {
    var b, b' := Bucket(c.ruleMap, x.host, x.path), Bucket(c'.ruleMap, x.host, x.path);
    assert SubSeq(b', b);
    SubSeqLength(b', b);
    InAdvancedSet(c, x);
    InAdvancedSet(c', x);
    hide RouteRules.Inv; hide SubSeq; hide Shrunk; hide AdvancedSet;
    assert x in b' && Advanced(b') && x in b;
    if |b| == 1 {
      assert b' == b;
    }
  }

  lemma NoLossNoChange(c: Cache, c': Cache)
    requires RouteRules.Inv(c) && RouteRules.Inv(c') && Shrunk(c, c') && forall r :: Live(c, r) ==> Live(c', r)
    ensures c'.ruleMap == c.ruleMap
  {
    hide RouteRules.Inv;
    InvIsNormal(c);
    InvIsNormal(c');
    forall h, p
      ensures Bucket(c'.ruleMap, h, p) == Bucket(c.ruleMap, h, p)
    {
      SameBucket(c, c', h, p);
    }
    SameBuckets(c'.ruleMap, c.ruleMap);
  }

  lemma SameBucket(c: Cache, c': Cache, h: string, p: string)
    requires RouteRules.Inv(c) && RouteRules.Inv(c') && Shrunk(c, c') && forall r :: Live(c, r) ==> Live(c', r)
    ensures Bucket(c'.ruleMap, h, p) == Bucket(c.ruleMap, h, p)
  {
    var b, b' := Bucket(c.ruleMap, h, p), Bucket(c'.ruleMap, h, p);
    assert SubSeq(b', b);
    SubSeqLength(b', b);
    forall x | x in b
      ensures x in b'
    {
      RuleOfBucket(c, h, p, x);
    }
    if b != [] {
      assert h in c.ruleMap && p in c.ruleMap[h];
      PlaceOfBucket(c, h, p);
      BucketDistinct(c, b);
      hide RouteRules.Inv; hide Bucket; hide Live; hide Shrunk; hide SubSeq;
      DistinctWithin(b, b');
    }
  }

  lemma {:induction false} DistinctWithin(a: seq<Rule>, b: seq<Rule>)
    requires Distinct(a) && forall x :: x in a ==> x in b
    ensures |a| <= |b|
  {
    if a != [] {
      var last := a[|a| - 1];
      assert last in a;
      var i :| 0 <= i < |b| && b[i] == last;
      var b' := b[..i] + b[i + 1..];
      forall x | x in a[..|a| - 1]
        ensures x in b'
      {
        assert x in a && x in b;
        var j :| 0 <= j < |b| && b[j] == x;
        assert x != last;
        assert if j < i then b'[j] == x else b'[j - 1] == x;
      }
      DistinctWithin(a[..|a| - 1], b');
    }
  }

  lemma SameCacheInSync(s: ServerState, s': ServerState, defaultBackend: string)
    requires s'.cache.ruleMap == s.cache.ruleMap && s'.routeTable == s.routeTable
    ensures InSync(s, defaultBackend) <==> InSync(s', defaultBackend)
  {
  }

  /** The rule cache has fewer places, or as many places and fewer advanced rules, than the table was rendered from. */
  ghost predicate Behind(s: ServerState, defaultBackend: string) {
    var places := BucketKeys(s.cache.ruleMap);
    |places| < |s.routeTable.basic| ||
    (|places| == |s.routeTable.basic| &&
     |AdvancedSet(s.cache)| + (if defaultBackend != "" && |places| > 0 then 1 else 0) < |s.routeTable.advanced|)
  }

  lemma BehindIsOutOfSync(s: ServerState, defaultBackend: string)
    requires RouteRules.Inv(s.cache) && Behind(s, defaultBackend)
    ensures !InSync(s, defaultBackend)
  {
    hide RouteRules.Inv; hide Enumerates; hide Render; hide BucketKeys; hide AdvancedSet;
    if e :| Enumerates(e, s.cache.ruleMap) && Render(s.cache, defaultBackend, e) == Some(s.routeTable) {
      TableCount(s.cache, defaultBackend, e);
      assert false;
    }
  }

  /** Losing a rule leaves the table behind, or further behind. */
  lemma LossIsBehind(s: ServerState, s': ServerState, defaultBackend: string, r: Rule)
    requires RouteRules.Inv(s.cache) && RouteRules.Inv(s'.cache) && Shrunk(s.cache, s'.cache)
    requires s'.routeTable == s.routeTable && (InSync(s, defaultBackend) || Behind(s, defaultBackend))
    requires Live(s.cache, r) && !Live(s'.cache, r)
    ensures Behind(s', defaultBackend)
  {
    hide RouteRules.Inv; hide Enumerates; hide Render; hide BucketKeys; hide AdvancedSet; hide Shrunk; hide Live;
    LossShows(s.cache, s'.cache, r);
    if !Behind(s, defaultBackend) {
      var e :| Enumerates(e, s.cache.ruleMap) && Render(s.cache, defaultBackend, e) == Some(s.routeTable);
      TableCount(s.cache, defaultBackend, e);
    }
  }

  /** What a failed update does to table and cache: without a loss nothing, and with one the table falls behind. */
  lemma FailureEffect(s: ServerState, defaultBackend: string, ingress: Ingress, how: Rendering)
    requires CacheOk(s.cache) && UpdatePossible(s, ingress, how)
    requires ingress.rules != [] && !UpdateIngress(s, defaultBackend, ingress, how).1
    ensures var s' := UpdateIngress(s, defaultBackend, ingress, how).0;
            && s'.routeTable == s.routeTable
            && if exists r :: Live(s.cache, r) && Lost(s, ingress, r)
               then InSync(s, defaultBackend) || Behind(s, defaultBackend) ==> Behind(s', defaultBackend)
               else s'.cache.ruleMap == s.cache.ruleMap
  {
    var s' := UpdateIngress(s, defaultBackend, ingress, how).0;
    UpdateIngressKeepsCacheOk(s, defaultBackend, ingress, how);
    FailureKeepsTable(s, defaultBackend, ingress, how);
    hide UpdateIngress; hide UpdatePossible; hide Live; hide Lost; hide InSync; hide Behind; hide AllBuild; hide AllChecked; hide RouteRules.Inv;
    forall h, p
      ensures SubSeq(Bucket(s'.cache.ruleMap, h, p), Bucket(s.cache.ruleMap, h, p))
    {
      FailedUpdateShrinks(s, defaultBackend, ingress, how, h, p);
    }
    assert Shrunk(s.cache, s'.cache);
    forall r
      ensures Live(s'.cache, r) <==> Live(s.cache, r) && !Lost(s, ingress, r)
    {
      FailedUpdateLosesExactly(s, defaultBackend, ingress, how, r);
    }
    hide Shrunk;
    if r :| Live(s.cache, r) && Lost(s, ingress, r) {
      if InSync(s, defaultBackend) || Behind(s, defaultBackend) {
        LossIsBehind(s, s', defaultBackend, r);
      }
    } else {
      NoLossNoChange(s.cache, s'.cache);
    }
  }

  /** A failed update leaves the old route table in place, and no later DeleteIngress of the ingress renders it again.
      Starting from a table in sync, it is still in sync exactly when the update cost no live rule: the ingress had none,
      and none of its paths before the first blocked one claimed the key of a younger rule of another ingress. */
  lemma StaleExactly(s: ServerState, defaultBackend: string, ingress: Ingress, how: Rendering)
    requires CacheOk(s.cache) && UpdatePossible(s, ingress, how) && InSync(s, defaultBackend)
    requires ingress.rules != [] && !UpdateIngress(s, defaultBackend, ingress, how).1
    ensures var s' := UpdateIngress(s, defaultBackend, ingress, how).0;
            InSync(s', defaultBackend) <==> !exists r :: Live(s.cache, r) && Lost(s, ingress, r)
    ensures IngressName(ingress) !in UpdateIngress(s, defaultBackend, ingress, how).0.cache.ingress2Rule
  {
    hide UpdateIngress; hide UpdatePossible; hide Live; hide Lost; hide InSync; hide Behind; hide AllBuild; hide AllChecked; hide RouteRules.Inv;
    var s' := UpdateIngress(s, defaultBackend, ingress, how).0;
    FailureEffect(s, defaultBackend, ingress, how);
    FailureKeepsTable(s, defaultBackend, ingress, how);
    UpdateIngressKeepsCacheOk(s, defaultBackend, ingress, how);
    if exists r :: Live(s.cache, r) && Lost(s, ingress, r) {
      BehindIsOutOfSync(s', defaultBackend);
    } else {
      SameCacheInSync(s, s', defaultBackend);
    }
  }

  // ---------------------------------------------------------------- every rendering is in sync

  lemma RenderedInSync(s: ServerState, defaultBackend: string, e: Enumeration, accepted: bool)
    requires Enumerates(e, s.cache.ruleMap) && UpdateRouteTable(s, defaultBackend, e, accepted).1
    ensures InSync(UpdateRouteTable(s, defaultBackend, e, accepted).0, defaultBackend)
  {
    hide Enumerates; hide Render;
    var s' := UpdateRouteTable(s, defaultBackend, e, accepted).0;
    assert Enumerates(e, s'.cache.ruleMap) && Render(s'.cache, defaultBackend, e) == Some(s'.routeTable);
  }

  lemma EmptyRenders(defaultBackend: string)
    ensures var e := Enumeration([], map[]);
            Enumerates(e, EMPTY_CACHE.ruleMap) && Render(EMPTY_CACHE, defaultBackend, e) == Some(RouteTable([], []))
  {
    var e := Enumeration([], map[]);
    assert GetBasic(EMPTY_CACHE.ruleMap, e) == [] && GetAdvanced(EMPTY_CACHE.ruleMap, e) == [];
    var none: seq<AdvancedRouteRule> := [];
    assert AdvancedFiles([]) == Some(none) && none + DefaultFiles(defaultBackend, false) == [] && BasicFiles([]) == [];
    assert RenderLists(defaultBackend, [], []) == Some(RouteTable([], []));
  }

  lemma InitiallyInSync(version: Version, defaultBackend: string)
    ensures InSync(InitialState(version), defaultBackend)
  {
    EmptyRenders(defaultBackend);
  }

  lemma SuccessInSync(s: ServerState, defaultBackend: string, ingress: Ingress, how: Rendering)
    requires UpdatePossible(s, ingress, how) && ingress.rules != [] && UpdateIngress(s, defaultBackend, ingress, how).1
    ensures InSync(UpdateIngress(s, defaultBackend, ingress, how).0, defaultBackend)
  {
    hide AfterUpdateCache; hide Enumerates; hide InSync; hide Configured; hide Render;
    var s1 := AfterUpdateCache(s, ingress).0;
    var s2 := UpdateRouteTable(s1, defaultBackend, how.first, how.accepted).0;
    RenderedInSync(s1, defaultBackend, how.first, how.accepted);
    SameCacheInSync(s2, UpdateBfeClusterConf(s2, defaultBackend, how.second), defaultBackend);
  }

  lemma DeletionInSync(s: ServerState, defaultBackend: string, namespace: string, name: string, how: Rendering)
    requires CacheOk(s.cache) && DeletePossible(s, namespace, name, how) && how.accepted
    ensures if NamespacedName(namespace, name) in s.cache.ingress2Rule
            then InSync(DeleteIngress(s, defaultBackend, namespace, name, how), defaultBackend)
            else DeleteIngress(s, defaultBackend, namespace, name, how) == s
  {
    hide RouteRules.Delete; hide Enumerates; hide InSync; hide Configured; hide CacheOk; hide NamespacedName; hide Render;
    if NamespacedName(namespace, name) in s.cache.ingress2Rule {
      DeleteAlwaysRenders(s, defaultBackend, namespace, name, how);
      var s1 := s.(cache := RouteRules.Delete(s.cache, NamespacedName(namespace, name)));
      var s2 := UpdateRouteTable(s1, defaultBackend, how.first, how.accepted).0;
      RenderedInSync(s1, defaultBackend, how.first, how.accepted);
      SameCacheInSync(s2, UpdateBfeClusterConf(s2, defaultBackend, how.second), defaultBackend);
    }
  }

  lemma FailureKeepsTable(s: ServerState, defaultBackend: string, ingress: Ingress, how: Rendering)
    requires ingress.rules != [] && !UpdateIngress(s, defaultBackend, ingress, how).1
    ensures var s' := UpdateIngress(s, defaultBackend, ingress, how).0;
            s'.routeTable == s.routeTable && s'.clusterConf == s.clusterConf && IngressName(ingress) !in s'.cache.ingress2Rule
  {
  }
}
