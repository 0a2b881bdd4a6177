/** HttpRouteRuleCache (internal/bfeConfig/configs/routeRuleCache.go) as the source writes it: two maps
    updated in place, proved against the functions of RouteRules and RuleLists. */
module RouteRuleCache {
  import opened Multimaps
  import opened Annotations
  import opened RouteRules
  import opened RuleOrder
  import opened RuleLists

  class HttpRouteRuleCache {
    // every rule put for an ingress, displaced ones included
    var ingress2Rule: Multimap<string, Rule>

    // the buckets
    var ruleMap: RuleMap

    ghost function State(): Cache
      reads this
    {
      Cache(ingress2Rule, ruleMap)
    }

    ghost predicate Valid()
      reads this
    {
      Inv(State())
    }

    constructor ()
      ensures State() == EMPTY_CACHE && Valid()
    {
      ingress2Rule := map[];
      ruleMap := map[];
    }

    method ContainsIngress(ingress: string) returns (r: bool)
      ensures r == (ingress in ingress2Rule)
    {
      r := ingress in ingress2Rule;
    }

    /** ok is false exactly when the source returns the conflict error. */
    method Put(rule: Rule) returns (ok: bool)
      requires Valid()
      modifies this
      ensures (State(), ok) == RouteRules.Put(old(State()), rule)
      ensures Valid()
    {
      hide Inv; hide Find; hide KeyOf; hide Equal; hide RouteRules.Put; hide SetBucket; hide Bucket; hide WithHost; hide Multimaps.Put; hide Multimaps.Remove;
      PutKeepsInv(State(), rule);
      ghost var c := State();
      ghost var created := WithHost(ruleMap, rule.host);
      WithHostKeepsBuckets(ruleMap, rule.host, rule.path);
      if rule.host !in ruleMap {
        ruleMap := ruleMap[rule.host := map[]];
      }
      var rules := Bucket(ruleMap, rule.host, rule.path);
      for i := 0 to |rules|
        invariant forall j :: 0 <= j < i ==> !Equal(rule.annotations, rules[j].annotations)
        invariant ingress2Rule == c.ingress2Rule && ruleMap == created
      {
        var r := rules[i];
        if Equal(rule.annotations, r.annotations) {
          PutFound(c, rule, i);
          if rule.createTime < r.createTime {
            ingress2Rule := Multimaps.Remove(ingress2Rule, rule.ingress, r);
            ruleMap := SetBucket(ruleMap, rule.host, rule.path, rules[i := rule]);
            ingress2Rule := Multimaps.Put(ingress2Rule, rule.ingress, rule);
            return true;
          } else {
            return rule.createTime == r.createTime;
          }
        }
      }
      PutNotFound(c, rule);
      ingress2Rule := Multimaps.Put(ingress2Rule, rule.ingress, rule);
      ruleMap := SetBucket(ruleMap, rule.host, rule.path, rules + [rule]);
      return true;
    }

    /** The body of delete's loop: filter one bucket and remove what became empty. */
    method DropRules(host: string, path: string, ingressName: string)
      modifies this`ruleMap
      ensures ruleMap == DropFrom(old(ruleMap), host, path, ingressName)
    {
      if host !in ruleMap || path !in ruleMap[host] {
        return;
      }
      var rules := DelRuleLoop(ruleMap[host][path], ingressName);
      ruleMap := SetBucket(ruleMap, host, path, rules);
      if |ruleMap[host][path]| == 0 {
        ruleMap := ruleMap[host := ruleMap[host] - {path}];
      }
      if |ruleMap[host]| == 0 {
        ruleMap := ruleMap - {host};
      }
    }

    /** delete walks the reverse index; the result is the deletion from every bucket. */
    method Delete(ingressName: string)
      requires Valid()
      modifies this
      ensures State() == RouteRules.Delete(old(State()), ingressName)
      ensures Valid()
    {
      hide Inv; hide Pruned; hide DropFrom; hide RouteRules.Delete;
      DeleteKeepsInv(State(), ingressName);
      var deleteRules := Values(ingress2Rule, ingressName);
      ghost var touched: set<(string, string)> := {};
      ghost var c := State();
      PrunedNothing(c, ingressName);
      var rest := deleteRules;
      while rest != {}
        invariant rest <= deleteRules
        invariant touched == set r | r in deleteRules - rest :: (r.host, r.path)
        invariant ruleMap == Pruned(c.ruleMap, ingressName, touched)
        invariant ingress2Rule == c.ingress2Rule
      {
        var rule :| rule in rest;
        DropRules(rule.host, rule.path, ingressName);
        PruneStep(c, ingressName, touched, rule.host, rule.path);
        rest := rest - {rule};
        touched := touched + {(rule.host, rule.path)};
      }
      assert deleteRules - rest == deleteRules;
      IndexReachesEveryRule(c, ingressName, touched);
      ingress2Rule := RemoveKey(ingress2Rule, ingressName);
      IndexAfterDelete(c, ingressName);
    }

    /** The two lists for the iteration order that Go happens to take. */
    method Get() returns (basicRuleList: seq<Rule>, advancedRuleList: seq<Rule>, ghost e: Enumeration)
      requires Valid()
      ensures Enumerates(e, ruleMap)
      ensures basicRuleList == GetBasic(ruleMap, e) && advancedRuleList == GetAdvanced(ruleMap, e)
      ensures OneEntryPerPlace(State(), basicRuleList)
      ensures Sorted(advancedRuleList) && Distinct(advancedRuleList)
      ensures forall r :: r in advancedRuleList <==> LiveAdvanced(State(), r)
    {
      hide Inv; hide BasicRules; hide AdvancedRules; hide OneEntryPerPlace; hide LiveAdvanced; hide Sorted; hide Distinct; hide Buckets; hide HostBuckets; hide StableSort;
      basicRuleList, advancedRuleList := [], [];
      ghost var buckets: seq<seq<Rule>> := [];
      NoBuckets(ruleMap);
      e := Enumeration([], map[]);
      var hosts := ruleMap.Keys;
      while hosts != {}
        invariant hosts <= ruleMap.Keys
        invariant Lists(e.hosts, ruleMap.Keys - hosts)
        invariant forall h :: h in ruleMap.Keys - hosts ==> h in e.paths && Lists(e.paths[h], ruleMap[h].Keys)
        invariant buckets == Buckets(ruleMap, e, e.hosts)
        invariant basicRuleList == BasicRules(buckets) && advancedRuleList == AdvancedRules(buckets)
      {
        var host :| host in hosts;
        ghost var order: seq<string> := [];
        ghost var before := buckets;
        var paths := ruleMap[host].Keys;
        while paths != {}
          invariant paths <= ruleMap[host].Keys
          invariant Lists(order, ruleMap[host].Keys - paths)
          invariant buckets == before + HostBuckets(ruleMap, host, order)
          invariant basicRuleList == BasicRules(buckets) && advancedRuleList == AdvancedRules(buckets)
        {
          var path :| path in paths;
          paths := paths - {path};
          var rules := ruleMap[host][path];
          ListsStep(buckets, rules);
          HostBucketsStep(ruleMap, host, order, path);
          assert before + HostBuckets(ruleMap, host, order) + [rules] == before + (HostBuckets(ruleMap, host, order) + [rules]);
          buckets := buckets + [rules];
          order := order + [path];
          if |rules| == 0 {
            continue;
          }
          if |rules| == 1 && Priority(rules[0].annotations) == PRIORITY_BASIC {
            basicRuleList := basicRuleList + [rules[0]];
            continue;
          }
          basicRuleList := basicRuleList + [rules[0].(cluster := ADVANCED_MODE)];
          advancedRuleList := advancedRuleList + rules;
        }
        ghost var longer := Enumeration(e.hosts + [host], e.paths[host := order]);
        BucketsStep(ruleMap, e, host, order);
        e := longer;
        hosts := hosts - {host};
      }
      advancedRuleList := StableSort(advancedRuleList);
      GetConserves(State(), e);
    }
  }

  method DelRuleLoop(ruleList: seq<Rule>, ingress: string) returns (result: seq<Rule>)
    ensures result == DelRule(ruleList, ingress)
  {
    result := [];
    for i := 0 to |ruleList|
      invariant result == DelRule(ruleList[..i], ingress)
    {
      assert ruleList[..i + 1][..i] == ruleList[..i];
      if ruleList[i].ingress != ingress {
        result := result + [ruleList[i]];
      }
    }
    assert ruleList[..|ruleList|] == ruleList;
  }

  // ---------------------------------------------------------------- the loops' steps

  /** The rule map with an entry for the host. */
  ghost function WithHost(m: RuleMap, host: string): RuleMap {
    if host in m then m else m[host := map[]]
  }

  lemma WithHostKeepsBuckets(m: RuleMap, host: string, path: string)
    ensures WithHost(m, host) == if host in m then m else m[host := map[]]
    ensures Bucket(WithHost(m, host), host, path) == Bucket(m, host, path)
    ensures forall b :: SetBucket(WithHost(m, host), host, path, b) == SetBucket(m, host, path, b)
  {
  }

  lemma PutFound(c: Cache, rule: Rule, i: nat)
    requires var b := Bucket(c.ruleMap, rule.host, rule.path);
             i < |b| && Equal(rule.annotations, b[i].annotations)
             && forall j :: 0 <= j < i ==> !Equal(rule.annotations, b[j].annotations)
    ensures var b := Bucket(c.ruleMap, rule.host, rule.path);
            RouteRules.Put(c, rule) ==
            if rule.createTime < b[i].createTime then
              (Cache(Multimaps.Put(Multimaps.Remove(c.ingress2Rule, rule.ingress, b[i]), rule.ingress, rule),
                     SetBucket(c.ruleMap, rule.host, rule.path, b[i := rule])), true)
            else (c, rule.createTime == b[i].createTime)
    ensures WithHost(c.ruleMap, rule.host) == c.ruleMap
  {
    hide SetBucket; hide Multimaps.Put; hide Multimaps.Remove;
  }

  lemma PutNotFound(c: Cache, rule: Rule)
    requires var b := Bucket(c.ruleMap, rule.host, rule.path);
             forall j :: 0 <= j < |b| ==> !Equal(rule.annotations, b[j].annotations)
    ensures var b := Bucket(c.ruleMap, rule.host, rule.path);
            RouteRules.Put(c, rule) ==
            (Cache(Multimaps.Put(c.ingress2Rule, rule.ingress, rule),
                   SetBucket(c.ruleMap, rule.host, rule.path, b + [rule])), true)
  {
    hide SetBucket; hide Multimaps.Put; hide Multimaps.Remove; hide Bucket;
    var b := Bucket(c.ruleMap, rule.host, rule.path);
    assert Find(b, KeyOf(rule).cookie, KeyOf(rule).header) == |b|;
  }

  /** One turn of delete's loop on the rule map. */
  function DropFrom(m: RuleMap, h: string, p: string, ingress: string): RuleMap {
    if h in m && p in m[h] then
      var m1 := SetBucket(m, h, p, DelRule(m[h][p], ingress));
      var m2 := if |m1[h][p]| == 0 then m1[h := m1[h] - {p}] else m1;
      if |m2[h]| == 0 then m2 - {h} else m2
    else m
  }

  lemma IndexAfterDelete(c: Cache, ingress: string)
    ensures RouteRules.Delete(c, ingress).ingress2Rule == RemoveKey(c.ingress2Rule, ingress)
  {
  }

  lemma PrunedNothing(c: Cache, ingress: string)
    requires Inv(c)
    ensures Pruned(c.ruleMap, ingress, {}) == c.ruleMap
  {
    hide Inv;
    InvIsNormal(c);
    forall h, p
      ensures Bucket(Pruned(c.ruleMap, ingress, {}), h, p) == Bucket(c.ruleMap, h, p)
    {
      PrunedBucketAt(c.ruleMap, ingress, {}, h, p);
    }
    SameBuckets(Pruned(c.ruleMap, ingress, {}), c.ruleMap);
  }

  lemma DelRuleTwice(b: seq<Rule>, ingress: string)
    ensures DelRule(DelRule(b, ingress), ingress) == DelRule(b, ingress)
  {
    DelRuleFacts(b, ingress);
    var d := DelRule(b, ingress);
    forall i | 0 <= i < |d|
      ensures d[i].ingress != ingress
    {
      assert d[i] in d;
    }
    KeepsAll(d, ingress);
  }

  lemma PruneStep(c: Cache, ingress: string, touched: set<(string, string)>, h: string, p: string)
    requires Inv(c)
    ensures Pruned(c.ruleMap, ingress, touched + {(h, p)}) == DropFrom(Pruned(c.ruleMap, ingress, touched), h, p, ingress)
  {
    hide Inv;
    hide DropFrom; hide Pruned; hide Normal; hide PrunedBucket; hide Bucket; hide DelRule;
    var m := c.ruleMap;
    InvIsNormal(c);
    var l, before := Pruned(m, ingress, touched + {(h, p)}), Pruned(m, ingress, touched);
    PrunedBucketAt(m, ingress, touched, h, p);
    PrunedBucketAt(m, ingress, touched + {(h, p)}, h, p);
    DropFromNormal(before, h, p, ingress);
    forall h', p'
      ensures Bucket(l, h', p') == Bucket(DropFrom(before, h, p, ingress), h', p')
    {
      PruneStepAt(m, ingress, touched, h, p, h', p');
    }
    SameBuckets(l, DropFrom(before, h, p, ingress));
  }

  lemma PruneStepAt(m: RuleMap, ingress: string, touched: set<(string, string)>, h: string, p: string, h': string, p': string)
    requires Normal(m)
    ensures Bucket(Pruned(m, ingress, touched + {(h, p)}), h', p') ==
            Bucket(DropFrom(Pruned(m, ingress, touched), h, p, ingress), h', p')
  {
    hide Pruned; hide Normal; hide DropFrom; hide DelRule; hide Bucket;
    PrunedBucketAt(m, ingress, touched + {(h, p)}, h', p');
    PrunedBucketAt(m, ingress, touched, h', p');
    DropFromBucket(Pruned(m, ingress, touched), h, p, ingress, h', p');
    DelRuleTwice(Bucket(m, h', p'), ingress);
  }

  lemma DropFromNormal(m: RuleMap, h: string, p: string, ingress: string)
    requires Normal(m)
    ensures Normal(DropFrom(m, h, p, ingress))
  {
  }

  lemma DropFromBucket(m: RuleMap, h: string, p: string, ingress: string, h': string, p': string)
    ensures Bucket(DropFrom(m, h, p, ingress), h', p') ==
            if h' == h && p' == p then DelRule(Bucket(m, h, p), ingress) else Bucket(m, h', p')
  {
    if h in m && p in m[h] && h' == h {
      var m1 := SetBucket(m, h, p, DelRule(m[h][p], ingress));
      assert p' != p ==> (p' in m1[h] <==> p' in m[h]);
      if |m1[h] - {p}| == 0 && p' != p {
        assert p' !in m1[h] - {p};
      }
    }
  }

  lemma ListsStep(bs: seq<seq<Rule>>, b: seq<Rule>)
    ensures BasicRules(bs + [b]) == BasicRules(bs) + if b == [] then [] else [BasicEntry(b)]
    ensures AdvancedRules(bs + [b]) == AdvancedRules(bs) + if Advanced(b) then b else []
  {
  }

  lemma HostBucketsStep(m: RuleMap, h: string, order: seq<string>, path: string)
    ensures HostBuckets(m, h, order + [path]) == HostBuckets(m, h, order) + [Bucket(m, h, path)]
  {
  }

  lemma NoBuckets(m: RuleMap)
    ensures Buckets(m, Enumeration([], map[]), []) == [] && BasicRules([]) == [] && AdvancedRules([]) == []
    ensures forall h :: HostBuckets(m, h, []) == []
  {
  }

  lemma BucketsStep(m: RuleMap, e: Enumeration, host: string, order: seq<string>)
    requires host !in e.hosts
    ensures var longer := Enumeration(e.hosts + [host], e.paths[host := order]);
            Buckets(m, longer, longer.hosts) == Buckets(m, e, e.hosts) + HostBuckets(m, host, order)
  {
    var longer := Enumeration(e.hosts + [host], e.paths[host := order]);
    BucketsExtend(m, e, longer, e.hosts);
    assert longer.hosts[..|longer.hosts| - 1] == e.hosts;
  }

  lemma {:induction false} BucketsExtend(m: RuleMap, e: Enumeration, longer: Enumeration, hosts: seq<string>)
    requires forall h :: h in hosts ==> PathOrder(e, h) == PathOrder(longer, h)
    ensures Buckets(m, e, hosts) == Buckets(m, longer, hosts)
  {
    if hosts != [] {
      BucketsExtend(m, e, longer, hosts[..|hosts| - 1]);
      assert hosts[|hosts| - 1] in hosts;
    }
  }
}
