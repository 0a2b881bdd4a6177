/** The state of HttpRouteRuleCache (internal/bfeConfig/configs/routeRuleCache.go), its two updates
    as functions, and what every sequence of them keeps. */
module RouteRules {
  import opened Multimaps
  import opened Kube
  import opened Annotations

  /** An httpRule is never changed once allocated; address is its identity as a pointer. */
  datatype Rule = Rule(address: nat, ingress: string, host: string, path: string,
                       annotations: Annots, cluster: string, createTime: int)

  type RuleMap = map<string, map<string, seq<Rule>>>

  datatype Cache = Cache(ingress2Rule: Multimap<string, Rule>, ruleMap: RuleMap)

  const EMPTY_CACHE := Cache(map[], map[])

  /** Two rules conflict when host, path and the two advanced conditions are the same. */
  datatype Key = Key(host: string, path: string, cookie: string, header: string)

  function KeyOf(r: Rule): Key {
    Key(r.host, r.path, Lookup(r.annotations, RouterCookie), Lookup(r.annotations, RouterHeader))
  }

  /** ruleMap[host][path], where Go yields nil for a missing host or path. */
  function Bucket(m: RuleMap, host: string, path: string): seq<Rule> {
    if host in m && path in m[host] then m[host][path] else []
  }

  function SetBucket(m: RuleMap, host: string, path: string, b: seq<Rule>): RuleMap {
    m[host := (if host in m then m[host] else map[])[path := b]]
  }

  /** Index of the first rule with the given advanced conditions, or the length of the bucket. */
  function Find(b: seq<Rule>, cookie: string, header: string): (i: nat)
    ensures i <= |b|
    ensures i < |b| ==> KeyOf(b[i]).cookie == cookie && KeyOf(b[i]).header == header
    ensures forall j :: 0 <= j < i ==> KeyOf(b[j]).cookie != cookie || KeyOf(b[j]).header != header
  {
    if b == [] then 0
    else if KeyOf(b[0]).cookie == cookie && KeyOf(b[0]).header == header then 0
    else 1 + Find(b[1..], cookie, header)
  }

  // ---------------------------------------------------------------- the two updates

  /** put: the new cache, and whether the source returns no error. */
  function Put(c: Cache, rule: Rule): (Cache, bool) {
    var b := Bucket(c.ruleMap, rule.host, rule.path);
    var i := Find(b, KeyOf(rule).cookie, KeyOf(rule).header);
    if i == |b| then
      (Cache(Multimaps.Put(c.ingress2Rule, rule.ingress, rule),
             SetBucket(c.ruleMap, rule.host, rule.path, b + [rule])), true)
    else if rule.createTime < b[i].createTime then
      (Cache(Multimaps.Put(Multimaps.Remove(c.ingress2Rule, rule.ingress, b[i]), rule.ingress, rule),
             SetBucket(c.ruleMap, rule.host, rule.path, b[i := rule])), true)
    else
      (c, rule.createTime == b[i].createTime)
  }

  function DelRule(rules: seq<Rule>, ingress: string): seq<Rule> {
    if rules == [] then [] else
      var last := rules[|rules| - 1];
      DelRule(rules[..|rules| - 1], ingress) + if last.ingress != ingress then [last] else []
  }

  /** The rule map without the rules of one ingress in the given buckets; empty buckets and hosts go. */
  function Pruned(m: RuleMap, ingress: string, touched: set<(string, string)>): RuleMap {
    map h | h in m && PrunedPaths(m, ingress, touched, h) != map[] :: PrunedPaths(m, ingress, touched, h)
  }

  function PrunedPaths(m: RuleMap, ingress: string, touched: set<(string, string)>, h: string): map<string, seq<Rule>>
    requires h in m
  {
    map p | p in m[h] && PrunedBucket(m, ingress, touched, h, p) != [] :: PrunedBucket(m, ingress, touched, h, p)
  }

  function PrunedBucket(m: RuleMap, ingress: string, touched: set<(string, string)>, h: string, p: string): seq<Rule> {
    var b := Bucket(m, h, p);
    if (h, p) in touched then DelRule(b, ingress) else b
  }

  /** Neither an empty bucket nor a host without buckets. */
  ghost predicate Normal(m: RuleMap) {
    forall h :: h in m ==> m[h] != map[] && forall p :: p in m[h] ==> m[h][p] != []
  }

  /** Normal rule maps are determined by their buckets. */
  lemma SameBuckets(m: RuleMap, n: RuleMap)
    requires Normal(m) && Normal(n) && forall h, p :: Bucket(m, h, p) == Bucket(n, h, p)
    ensures m == n
  {
    forall h | h in m
      ensures h in n && forall p :: p in m[h] ==> p in n[h] && m[h][p] == n[h][p]
    {
      forall p | p in m[h]
        ensures h in n && p in n[h] && m[h][p] == n[h][p]
      {
        assert Bucket(m, h, p) == Bucket(n, h, p);
      }
      var p :| p in m[h];
    }
    forall h | h in n
      ensures h in m && forall p :: p in n[h] ==> p in m[h]
    {
      forall p | p in n[h]
        ensures h in m && p in m[h]
      {
        assert Bucket(m, h, p) == Bucket(n, h, p);
      }
      var p :| p in n[h];
    }
    forall h | h in m
      ensures m[h] == n[h]
    {
    }
  }

  lemma PrunedBucketAt(m: RuleMap, ingress: string, touched: set<(string, string)>, h: string, p: string)
    requires Normal(m)
    ensures Normal(Pruned(m, ingress, touched))
    ensures Bucket(Pruned(m, ingress, touched), h, p) == PrunedBucket(m, ingress, touched, h, p)
  {
    if h in m && p in m[h] && PrunedBucket(m, ingress, touched, h, p) != [] {
      assert p in PrunedPaths(m, ingress, touched, h);
    }
  }

  /** All host and path pairs with a bucket. */
  function BucketKeys(m: RuleMap): set<(string, string)> {
    set h, p | h in m && p in m[h] :: (h, p)
  }

  /** delete, said without the reverse index: drop the ingress's rules from every bucket. */
  function Delete(c: Cache, ingress: string): Cache {
    Cache(RemoveKey(c.ingress2Rule, ingress), Pruned(c.ruleMap, ingress, BucketKeys(c.ruleMap)))
  }

  // ---------------------------------------------------------------- what every update keeps

  predicate Live(c: Cache, r: Rule) {
    r in Bucket(c.ruleMap, r.host, r.path)
  }

  /** A bucket is non-empty, its rules are filed under their own host and path, no two of them
      conflict, and the reverse index knows each of them. */
  ghost predicate BucketOk(index: Multimap<string, Rule>, h: string, p: string, b: seq<Rule>) {
    && b != []
    && (forall i :: 0 <= i < |b| ==> b[i].host == h && b[i].path == p && Has(index, b[i].ingress, b[i]))
    && DistinctKeys(b)
  }

  ghost predicate DistinctKeys(b: seq<Rule>) {
    forall i, j :: 0 <= i < j < |b| ==> KeyOf(b[i]) != KeyOf(b[j])
  }

  /** The index is one-directional: it may also hold rules that were displaced. */
  ghost predicate Inv(c: Cache) {
    && (forall h :: h in c.ruleMap ==> c.ruleMap[h] != map[])
    && (forall h, p :: h in c.ruleMap && p in c.ruleMap[h] ==> BucketOk(c.ingress2Rule, h, p, c.ruleMap[h][p]))
    && (forall i, r :: Has(c.ingress2Rule, i, r) ==> r.ingress == i)
  }

  lemma InvIsNormal(c: Cache)
    requires Inv(c)
    ensures Normal(c.ruleMap)
  {
  }

  /** put either leaves the cache alone or writes the rule at its place in the bucket. */
  lemma PutShape(c: Cache, rule: Rule)
    ensures var b := Bucket(c.ruleMap, rule.host, rule.path);
            var i := Find(b, KeyOf(rule).cookie, KeyOf(rule).header);
            Put(c, rule).0 ==
            if i == |b| || rule.createTime < b[i].createTime
            then Cache(IndexAfterPut(c, rule, i), SetBucket(c.ruleMap, rule.host, rule.path, Inserted(b, i, rule)))
            else c
  {
    hide Find; hide SetBucket; hide Multimaps.Put; hide Multimaps.Remove;
  }

  lemma PutKeepsInv(c: Cache, rule: Rule)
    requires Inv(c)
    ensures Inv(Put(c, rule).0)
  {
    hide *;
    var b := Bucket(c.ruleMap, rule.host, rule.path);
    var i := Find(b, KeyOf(rule).cookie, KeyOf(rule).header);
    PutShape(c, rule);
    if i == |b| || rule.createTime < b[i].createTime {
      PutKeepsBucketOk(c, rule, i);
      SetKeepsInv(c, rule, i, Inserted(b, i, rule));
    }
  }

  lemma SetKeepsInv(c: Cache, rule: Rule, i: nat, b: seq<Rule>)
    requires Inv(c) && BucketOk(IndexAfterPut(c, rule, i), rule.host, rule.path, b)
    ensures Inv(Cache(IndexAfterPut(c, rule, i), SetBucket(c.ruleMap, rule.host, rule.path, b)))
  {
    hide IndexAfterPut; hide BucketOk; hide Multimaps.Has;
    var index, m := IndexAfterPut(c, rule, i), SetBucket(c.ruleMap, rule.host, rule.path, b);
    assert rule.path in m[rule.host];
    forall h, p | h in m && p in m[h]
      ensures BucketOk(index, h, p, m[h][p])
    {
      if h != rule.host || p != rule.path {
        assert BucketOk(c.ingress2Rule, h, p, c.ruleMap[h][p]);
        OtherBucketOk(c, rule, i, h, p, c.ruleMap[h][p]);
      }
    }
    forall j, r | Has(index, j, r)
      ensures r.ingress == j
    {
      IndexAfterPutHas(c, rule, i, j, r);
    }
  }

  /** The index after an insertion at position i of the rule's own bucket. */
  function IndexAfterPut(c: Cache, rule: Rule, i: nat): Multimap<string, Rule> {
    var b := Bucket(c.ruleMap, rule.host, rule.path);
    if i >= |b| then Multimaps.Put(c.ingress2Rule, rule.ingress, rule)
    else Multimaps.Put(Multimaps.Remove(c.ingress2Rule, rule.ingress, b[i]), rule.ingress, rule)
  }

  lemma IndexAfterPutHas(c: Cache, rule: Rule, i: nat, ingress: string, r: Rule)
    ensures Has(IndexAfterPut(c, rule, i), ingress, r) ==> Has(c.ingress2Rule, ingress, r) || (ingress == rule.ingress && r == rule)
    ensures Has(IndexAfterPut(c, rule, i), rule.ingress, rule)
    ensures var b := Bucket(c.ruleMap, rule.host, rule.path);
            Has(c.ingress2Rule, ingress, r) && (i < |b| ==> r != b[i]) ==> Has(IndexAfterPut(c, rule, i), ingress, r)
  {
  }

  lemma OthersDiffer(b: seq<Rule>, rule: Rule, i: nat)
    requires i == Find(b, KeyOf(rule).cookie, KeyOf(rule).header)
    requires forall j :: 0 <= j < |b| ==> b[j].host == rule.host && b[j].path == rule.path
    requires DistinctKeys(b)
    ensures forall j :: 0 <= j < |b| && j != i ==> KeyOf(b[j]) != KeyOf(rule)
  {
  }

  /** b with rule at position i. */
  function Inserted(b: seq<Rule>, i: nat, rule: Rule): seq<Rule>
    requires i <= |b|
  {
    if i == |b| then b + [rule] else b[i := rule]
  }

  lemma InsertedOk(index: Multimap<string, Rule>, b: seq<Rule>, i: nat, rule: Rule)
    requires i <= |b| && DistinctKeys(b) && Has(index, rule.ingress, rule)
    requires forall j :: 0 <= j < |b| && j != i ==>
               b[j].host == rule.host && b[j].path == rule.path && Has(index, b[j].ingress, b[j]) && KeyOf(b[j]) != KeyOf(rule)
    ensures BucketOk(index, rule.host, rule.path, Inserted(b, i, rule))
  {
  }

  lemma PutKeepsBucketOk(c: Cache, rule: Rule, i: nat)
    requires Inv(c)
    requires i == Find(Bucket(c.ruleMap, rule.host, rule.path), KeyOf(rule).cookie, KeyOf(rule).header)
    ensures var b := Bucket(c.ruleMap, rule.host, rule.path);
            BucketOk(IndexAfterPut(c, rule, i), rule.host, rule.path, Inserted(b, i, rule))
  {
    var b, index := Bucket(c.ruleMap, rule.host, rule.path), IndexAfterPut(c, rule, i);
    assert b != [] ==> BucketOk(c.ingress2Rule, rule.host, rule.path, b);
    hide Find; hide KeyOf; hide IndexAfterPut; hide Inv; hide Multimaps.Has; hide Bucket; hide Inserted;
    OthersDiffer(b, rule, i);
    IndexAfterPutHas(c, rule, i, rule.ingress, rule);
    forall j | 0 <= j < |b| && j != i
      ensures Has(index, b[j].ingress, b[j])
    {
      IndexAfterPutHas(c, rule, i, b[j].ingress, b[j]);
      assert i < |b| ==> KeyOf(b[i]) != KeyOf(b[j]);
    }
    InsertedOk(index, b, i, rule);
  }

  lemma OtherBucketOk(c: Cache, rule: Rule, i: nat, h: string, p: string, b: seq<Rule>)
    requires Inv(c) && BucketOk(c.ingress2Rule, h, p, b)
    requires h != rule.host || p != rule.path
    ensures BucketOk(IndexAfterPut(c, rule, i), h, p, b)
  {
  }

  lemma {:induction false} DelRuleMember(b: seq<Rule>, ingress: string, r: Rule)
    ensures r in DelRule(b, ingress) <==> r in b && r.ingress != ingress
  {
    if b != [] {
      var front, last := b[..|b| - 1], b[|b| - 1];
      DelRuleMember(front, ingress, r);
      assert r in b <==> r in front || r == last;
    }
  }

  lemma DelRuleStep(b: seq<Rule>, ingress: string)
    ensures if b == [] then DelRule(b, ingress) == []
            else DelRule(b, ingress) == DelRule(b[..|b| - 1], ingress) + if b[|b| - 1].ingress != ingress then [b[|b| - 1]] else []
  {
  }

  lemma {:induction false} DelRuleLength(b: seq<Rule>, ingress: string)
    ensures |DelRule(b, ingress)| <= |b|
    ensures |DelRule(b, ingress)| == |b| ==> DelRule(b, ingress) == b
  {
    hide *;
    DelRuleStep(b, ingress);
    if b != [] {
      var front, last := b[..|b| - 1], b[|b| - 1];
      DelRuleLength(front, ingress);
      if |DelRule(b, ingress)| == |b| {
        assert DelRule(b, ingress) == front + [last] == b;
      }
    }
  }

  lemma DelRuleFacts(b: seq<Rule>, ingress: string)
    ensures forall r :: r in DelRule(b, ingress) <==> r in b && r.ingress != ingress
    ensures |DelRule(b, ingress)| <= |b|
    ensures |DelRule(b, ingress)| == |b| ==> DelRule(b, ingress) == b
  {
    hide DelRule;
    DelRuleLength(b, ingress);
    forall r
      ensures r in DelRule(b, ingress) <==> r in b && r.ingress != ingress
    {
      DelRuleMember(b, ingress, r);
    }
  }

  lemma {:induction false} DelRuleDistinct(b: seq<Rule>, ingress: string)
    requires DistinctKeys(b)
    ensures DistinctKeys(DelRule(b, ingress))
  {
    if b != [] {
      var front, last := b[..|b| - 1], b[|b| - 1];
      DelRuleDistinct(front, ingress);
      DelRuleFacts(front, ingress);
      var d := DelRule(front, ingress);
      forall i | 0 <= i < |d|
        ensures KeyOf(d[i]) != KeyOf(last)
      {
        assert d[i] in d && d[i] in front;
      }
    }
  }

  lemma DeleteKeepsInv(c: Cache, ingress: string)
    requires Inv(c)
    ensures Inv(Delete(c, ingress))
  {
    var c' := Delete(c, ingress);
    forall h, p | h in c'.ruleMap && p in c'.ruleMap[h]
      ensures BucketOk(c'.ingress2Rule, h, p, c'.ruleMap[h][p])
    {
      assert (h, p) in BucketKeys(c.ruleMap);
      DeleteKeepsBucketOk(c.ingress2Rule, ingress, h, p, c.ruleMap[h][p]);
    }
    forall i, r | Has(c'.ingress2Rule, i, r)
      ensures r.ingress == i
    {
      RemoveKeyHas(c.ingress2Rule, ingress, i, r);
    }
  }

  lemma DeleteKeepsBucketOk(index: Multimap<string, Rule>, ingress: string, h: string, p: string, b: seq<Rule>)
    requires BucketOk(index, h, p, b) && DelRule(b, ingress) != []
    ensures BucketOk(RemoveKey(index, ingress), h, p, DelRule(b, ingress))
  {
    hide DelRule; hide DistinctKeys; hide RemoveKey; hide Multimaps.Has;
    var b' := DelRule(b, ingress);
    DelRuleFacts(b, ingress);
    DelRuleDistinct(b, ingress);
    forall i | 0 <= i < |b'|
      ensures b'[i].host == h && b'[i].path == p && Has(RemoveKey(index, ingress), b'[i].ingress, b'[i])
    {
      assert b'[i] in b';
      assert b'[i] in b && b'[i].ingress != ingress;
      RemoveKeyHas(index, ingress, b'[i].ingress, b'[i]);
    }
  }

  /** The buckets the reverse index leads to are all that matter: every rule of the ingress is in one. */
  lemma IndexReachesEveryRule(c: Cache, ingress: string, touched: set<(string, string)>)
    requires Inv(c)
    requires touched == set r | r in Values(c.ingress2Rule, ingress) :: (r.host, r.path)
    ensures Pruned(c.ruleMap, ingress, touched) == Delete(c, ingress).ruleMap
  {
    var all := BucketKeys(c.ruleMap);
    forall h, p | h in c.ruleMap && p in c.ruleMap[h]
      ensures PrunedBucket(c.ruleMap, ingress, touched, h, p) == PrunedBucket(c.ruleMap, ingress, all, h, p)
    {
      assert (h, p) in all;
      SamePrunedBucket(c, ingress, touched, h, p);
    }
    SamePruned(c.ruleMap, ingress, touched, all);
  }

  lemma SamePrunedBucket(c: Cache, ingress: string, touched: set<(string, string)>, h: string, p: string)
    requires Inv(c) && h in c.ruleMap && p in c.ruleMap[h]
    requires touched == set r | r in Values(c.ingress2Rule, ingress) :: (r.host, r.path)
    ensures PrunedBucket(c.ruleMap, ingress, touched, h, p) == DelRule(c.ruleMap[h][p], ingress)
  {
    if (h, p) !in touched {
      NothingToDelete(c.ruleMap[h][p], ingress, c.ingress2Rule, h, p);
    }
  }

  lemma SamePruned(m: RuleMap, ingress: string, t1: set<(string, string)>, t2: set<(string, string)>)
    requires forall h, p :: h in m && p in m[h] ==> PrunedBucket(m, ingress, t1, h, p) == PrunedBucket(m, ingress, t2, h, p)
    ensures Pruned(m, ingress, t1) == Pruned(m, ingress, t2)
  {
    hide PrunedBucket;
    forall h | h in m
      ensures PrunedPaths(m, ingress, t1, h) == PrunedPaths(m, ingress, t2, h)
    {
    }
    hide PrunedPaths;
  }

  lemma NothingToDelete(b: seq<Rule>, ingress: string, index: Multimap<string, Rule>, h: string, p: string)
    requires BucketOk(index, h, p, b)
    requires forall r :: r in Values(index, ingress) ==> (r.host, r.path) != (h, p)
    ensures DelRule(b, ingress) == b
  {
  }

  lemma {:induction false} KeepsAll(b: seq<Rule>, ingress: string)
    requires forall i :: 0 <= i < |b| ==> b[i].ingress != ingress
    ensures DelRule(b, ingress) == b
  {
    hide *;
    DelRuleStep(b, ingress);
    if b != [] {
      var front := b[..|b| - 1];
      assert b == front + [b[|b| - 1]];
      KeepsAll(front, ingress);
    }
  }

  // ---------------------------------------------------------------- refinement of a plain map

  /** The live rule of a key. */
  function LiveAt(c: Cache, k: Key): Option<Rule> {
    var b := Bucket(c.ruleMap, k.host, k.path);
    var i := Find(b, k.cookie, k.header);
    if i < |b| then Some(b[i]) else None
  }

  /** The documented principle on a plain map: the first created rule of a key is the valid one. */
  function MapPut(m: map<Key, Rule>, r: Rule): (map<Key, Rule>, bool) {
    var k := KeyOf(r);
    if k !in m || r.createTime < m[k].createTime then (m[k := r], true)
    else (m, r.createTime == m[k].createTime)
  }

  function MapDelete(m: map<Key, Rule>, ingress: string): map<Key, Rule> {
    map k | k in m && m[k].ingress != ingress :: m[k]
  }

  ghost predicate Refines(c: Cache, m: map<Key, Rule>) {
    forall k: Key :: LiveAt(c, k) == if k in m then Some(m[k]) else None
  }

  /** Live rules and live keys are the same thing. */
  lemma LiveRuleAtItsKey(c: Cache, r: Rule)
    requires Inv(c)
    ensures Live(c, r) <==> LiveAt(c, KeyOf(r)) == Some(r)
  {
    hide Inv; hide Find; hide Bucket;
    var b := Bucket(c.ruleMap, r.host, r.path);
    DistinctInBucket(c, r.host, r.path);
    if i :| 0 <= i < |b| && b[i] == r {
      var found := Find(b, KeyOf(r).cookie, KeyOf(r).header);
      assert found == i;
    }
  }

  lemma LiveAtHasKey(c: Cache, k: Key)
    requires Inv(c) && LiveAt(c, k).Some?
    ensures KeyOf(LiveAt(c, k).value) == k && Live(c, LiveAt(c, k).value)
  {
  }

  lemma PutAdmits(c: Cache, rule: Rule)
    ensures Put(c, rule).1 <==> LiveAt(c, KeyOf(rule)).None? || rule.createTime <= LiveAt(c, KeyOf(rule)).value.createTime
  {
  }

  lemma PutLiveAt(c: Cache, rule: Rule, k: Key)
    requires Inv(c)
    ensures LiveAt(Put(c, rule).0, k) ==
            if k == KeyOf(rule) && (LiveAt(c, k).None? || rule.createTime < LiveAt(c, k).value.createTime)
            then Some(rule) else LiveAt(c, k)
  {
    hide Inv; hide Find; hide SetBucket; hide Put; hide Bucket; hide IndexAfterPut;
    var b := Bucket(c.ruleMap, rule.host, rule.path);
    var i := Find(b, KeyOf(rule).cookie, KeyOf(rule).header);
    PutShape(c, rule);
    DistinctInBucket(c, rule.host, rule.path);
    if i == |b| || rule.createTime < b[i].createTime {
      BucketAfterSet(c.ruleMap, rule.host, rule.path, Inserted(b, i, rule), k.host, k.path);
      if k.host == rule.host && k.path == rule.path {
        FindAfterPut(b, i, rule, k.cookie, k.header);
      }
    }
  }

  lemma DistinctInBucket(c: Cache, h: string, p: string)
    requires Inv(c)
    ensures var b := Bucket(c.ruleMap, h, p);
            forall i, j :: 0 <= i < j < |b| ==> KeyOf(b[i]).cookie != KeyOf(b[j]).cookie || KeyOf(b[i]).header != KeyOf(b[j]).header
  {
    hide Multimaps.Has;
    var b := Bucket(c.ruleMap, h, p);
    assert b != [] ==> BucketOk(c.ingress2Rule, h, p, b);
  }

  lemma BucketAfterSet(m: RuleMap, h: string, p: string, b: seq<Rule>, h': string, p': string)
    ensures Bucket(SetBucket(m, h, p, b), h', p') == if h' == h && p' == p then b else Bucket(m, h', p')
  {
  }

  lemma FindIs(b: seq<Rule>, i: nat, cookie: string, header: string)
    requires i <= |b| && (i < |b| ==> KeyOf(b[i]).cookie == cookie && KeyOf(b[i]).header == header)
    requires forall j :: 0 <= j < i ==> KeyOf(b[j]).cookie != cookie || KeyOf(b[j]).header != header
    ensures Find(b, cookie, header) == i
  {
    hide Find; hide KeyOf;
    var j := Find(b, cookie, header);
  }

  lemma FindAfterPut(b: seq<Rule>, i: nat, rule: Rule, cookie: string, header: string)
    requires i == Find(b, KeyOf(rule).cookie, KeyOf(rule).header)
    requires forall j, l :: 0 <= j < l < |b| ==> KeyOf(b[j]).cookie != KeyOf(b[l]).cookie || KeyOf(b[j]).header != KeyOf(b[l]).header
    ensures var b' := Inserted(b, i, rule);
            if cookie == KeyOf(rule).cookie && header == KeyOf(rule).header then Find(b', cookie, header) == i
            else if Find(b, cookie, header) == |b| then Find(b', cookie, header) == |b'|
            else Find(b', cookie, header) == Find(b, cookie, header)
  {
    hide Find; hide KeyOf;
    var b', j := Inserted(b, i, rule), Find(b, cookie, header);
    if cookie == KeyOf(rule).cookie && header == KeyOf(rule).header {
      FindIs(b', i, cookie, header);
    } else {
      FindIs(b', if j < |b| then j else |b'|, cookie, header);
    }
  }

  lemma PutRefines(c: Cache, m: map<Key, Rule>, rule: Rule)
    requires Inv(c) && Refines(c, m)
    ensures Refines(Put(c, rule).0, MapPut(m, rule).0)
    ensures Put(c, rule).1 == MapPut(m, rule).1
  {
    hide Inv; hide LiveAt; hide Put; hide KeyOf;
    assert LiveAt(c, KeyOf(rule)) == if KeyOf(rule) in m then Some(m[KeyOf(rule)]) else None;
    PutAdmits(c, rule);
    forall k: Key
      ensures LiveAt(Put(c, rule).0, k) == if k in MapPut(m, rule).0 then Some(MapPut(m, rule).0[k]) else None
    {
      PutLiveAt(c, rule, k);
    }
  }

  lemma DeleteLiveAt(c: Cache, ingress: string, k: Key)
    requires Inv(c)
    ensures LiveAt(Delete(c, ingress), k) ==
            (match LiveAt(c, k)
             case None => None
             case Some(r) => if r.ingress == ingress then None else Some(r))
  {
    var c' := Delete(c, ingress);
    DeleteKeepsInv(c, ingress);
    var b, b' := Bucket(c.ruleMap, k.host, k.path), Bucket(c'.ruleMap, k.host, k.path);
    BucketAfterDelete(c, ingress, k.host, k.path);
    DelRuleFacts(b, ingress);
    if LiveAt(c', k).Some? {
      var r := LiveAt(c', k).value;
      LiveAtHasKey(c', k);
      assert r in b';
      LiveRuleAtItsKey(c, r);
    }
    if LiveAt(c, k).Some? && LiveAt(c, k).value.ingress != ingress {
      var r := LiveAt(c, k).value;
      LiveAtHasKey(c, k);
      assert r in b';
      LiveRuleAtItsKey(c', r);
    }
  }

  lemma BucketAfterDelete(c: Cache, ingress: string, h: string, p: string)
    requires Inv(c)
    ensures Bucket(Delete(c, ingress).ruleMap, h, p) == DelRule(Bucket(c.ruleMap, h, p), ingress)
  {
    if h in c.ruleMap && p in c.ruleMap[h] {
      var all := BucketKeys(c.ruleMap);
      assert (h, p) in all;
      assert PrunedBucket(c.ruleMap, ingress, all, h, p) == DelRule(c.ruleMap[h][p], ingress);
      if DelRule(c.ruleMap[h][p], ingress) != [] {
        assert p in PrunedPaths(c.ruleMap, ingress, all, h);
      }
    }
  }

  /** A deletion takes exactly the ingress's own live rules. */
  lemma DeleteLive(c: Cache, ingress: string, r: Rule)
    requires Inv(c)
    ensures Live(Delete(c, ingress), r) <==> Live(c, r) && r.ingress != ingress
  {
    BucketAfterDelete(c, ingress, r.host, r.path);
    DelRuleFacts(Bucket(c.ruleMap, r.host, r.path), ingress);
  }

  lemma DeleteRefines(c: Cache, m: map<Key, Rule>, ingress: string)
    requires Inv(c) && Refines(c, m)
    ensures Refines(Delete(c, ingress), MapDelete(m, ingress))
  {
    forall k: Key
      ensures LiveAt(Delete(c, ingress), k) ==
              if k in MapDelete(m, ingress) then Some(MapDelete(m, ingress)[k]) else None
    {
      DeleteLiveAt(c, ingress, k);
    }
  }

  // ---------------------------------------------------------------- runs

  datatype Op = PutOp(rule: Rule) | DeleteOp(ingress: string)

  function Run(ops: seq<Op>): Cache {
    if ops == [] then EMPTY_CACHE else
      var c := Run(ops[..|ops| - 1]);
      match ops[|ops| - 1]
      case PutOp(r) => Put(c, r).0
      case DeleteOp(i) => Delete(c, i)
  }

  function MapRun(ops: seq<Op>): map<Key, Rule> {
    if ops == [] then map[] else
      var m := MapRun(ops[..|ops| - 1]);
      match ops[|ops| - 1]
      case PutOp(r) => MapPut(m, r).0
      case DeleteOp(i) => MapDelete(m, i)
  }

  /** After every run of puts and deletes the nested maps hold exactly what the plain map holds. */
  lemma {:induction false} RunRefines(ops: seq<Op>)
    ensures Inv(Run(ops)) && Refines(Run(ops), MapRun(ops))
  {
    if ops != [] {
      var front := ops[..|ops| - 1];
      RunRefines(front);
      match ops[|ops| - 1]
      case PutOp(r) =>
        PutKeepsInv(Run(front), r);
        PutRefines(Run(front), MapRun(front), r);
      case DeleteOp(i) =>
        DeleteKeepsInv(Run(front), i);
        DeleteRefines(Run(front), MapRun(front), i);
    }
  }

  /** The reverse index really is looser than the rule map: put removes a displaced rule from it under the new rule's ingress,
      so a displaced rule stays indexed exactly when it belongs to another ingress. */
  lemma DisplacedRuleStaysIndexed(c: Cache, rule: Rule, r: Rule)
    requires Inv(c) && LiveAt(c, KeyOf(rule)) == Some(r) && rule.createTime < r.createTime
    ensures var c' := Put(c, rule).0;
            !Live(c', r) && (Has(c'.ingress2Rule, r.ingress, r) <==> r.ingress != rule.ingress)
  {
    hide Put; hide Inv; hide Find; hide BucketOk; hide Live; hide Bucket; hide IndexAfterPut; hide SetBucket; hide Multimaps.Has;
    var i := Find(Bucket(c.ruleMap, rule.host, rule.path), KeyOf(rule).cookie, KeyOf(rule).header);
    PutShape(c, rule);
    LiveAtHasKey(c, KeyOf(rule));
    LiveIsIndexed(c, r);
    PutKeepsInv(c, rule);
    PutLiveAt(c, rule, KeyOf(rule));
    LiveRuleAtItsKey(Put(c, rule).0, r);
    DisplacedIndex(c, rule, i, r);
  }

  lemma LiveIsIndexed(c: Cache, r: Rule)
    requires Inv(c) && Live(c, r)
    ensures Has(c.ingress2Rule, r.ingress, r)
  {
    hide Multimaps.Has;
    assert BucketOk(c.ingress2Rule, r.host, r.path, Bucket(c.ruleMap, r.host, r.path));
  }

  lemma DisplacedIndex(c: Cache, rule: Rule, i: nat, r: Rule)
    requires i < |Bucket(c.ruleMap, rule.host, rule.path)| && Bucket(c.ruleMap, rule.host, rule.path)[i] == r
    requires Has(c.ingress2Rule, r.ingress, r) && r != rule
    ensures Has(IndexAfterPut(c, rule, i), r.ingress, r) <==> r.ingress != rule.ingress
  {
  }

  // ---------------------------------------------------------------- first created wins

  function PutAll(c: Cache, rules: seq<Rule>): Cache {
    if rules == [] then c else Put(PutAll(c, rules[..|rules| - 1]), rules[|rules| - 1]).0
  }

  /** The rules that ever claimed key k, oldest claim first: the live rule, then the puts in order. */
  function Claims(c: Cache, rules: seq<Rule>, k: Key): seq<Rule> {
    if rules == [] then (if LiveAt(c, k).Some? then [LiveAt(c, k).value] else [])
    else
      var last := rules[|rules| - 1];
      Claims(c, rules[..|rules| - 1], k) + if KeyOf(last) == k then [last] else []
  }

  /** Minimal creation time, and the first to be put among those. */
  ghost predicate FirstCreated(claims: seq<Rule>, r: Rule) {
    exists i :: 0 <= i < |claims| && claims[i] == r
      && (forall j :: 0 <= j < |claims| ==> r.createTime <= claims[j].createTime)
      && (forall j :: 0 <= j < i ==> r.createTime < claims[j].createTime)
  }

  lemma {:induction false} PutAllKeepsInv(c: Cache, rules: seq<Rule>)
    requires Inv(c)
    ensures Inv(PutAll(c, rules))
  {
    if rules != [] {
      PutAllKeepsInv(c, rules[..|rules| - 1]);
      PutKeepsInv(PutAll(c, rules[..|rules| - 1]), rules[|rules| - 1]);
    }
  }

  /** First created wins, from any reachable cache and for any sequence of puts. */
  lemma {:induction false} FirstCreatedWins(c: Cache, rules: seq<Rule>, k: Key)
    requires Inv(c)
    ensures match LiveAt(PutAll(c, rules), k)
            case None => Claims(c, rules, k) == []
            case Some(r) => FirstCreated(Claims(c, rules, k), r)
  {
    hide Inv; hide LiveAt; hide Put;
    if rules == [] {
      if LiveAt(c, k).Some? {
        assert Claims(c, rules, k)[0] == LiveAt(c, k).value;
      }
    } else {
      var front, last := rules[..|rules| - 1], rules[|rules| - 1];
      FirstCreatedWins(c, front, k);
      PutAllKeepsInv(c, front);
      PutLiveAt(PutAll(c, front), last, k);
      if KeyOf(last) == k {
        var claims := Claims(c, front, k);
        match LiveAt(PutAll(c, front), k)
        case None =>
          assert ([] + [last])[0] == last;
        case Some(r) =>
          FirstCreatedStep(claims, r, last);
      } else {
        assert Claims(c, rules, k) == Claims(c, front, k);
      }
    }
  }

  lemma FirstCreatedStep(claims: seq<Rule>, r: Rule, last: Rule)
    requires FirstCreated(claims, r)
    ensures FirstCreated(claims + [last], if last.createTime < r.createTime then last else r)
  {
    var i :| 0 <= i < |claims| && claims[i] == r
      && (forall j :: 0 <= j < |claims| ==> r.createTime <= claims[j].createTime)
      && (forall j :: 0 <= j < i ==> r.createTime < claims[j].createTime);
    assert (claims + [last])[i] == r && (claims + [last])[|claims|] == last;
  }

  lemma {:induction false} ClaimsMembers(c: Cache, rules: seq<Rule>, k: Key, r: Rule)
    ensures r in Claims(c, rules, k) <==> LiveAt(c, k) == Some(r) || (r in rules && KeyOf(r) == k)
  {
    if rules != [] {
      ClaimsMembers(c, rules[..|rules| - 1], k, r);
      assert rules == rules[..|rules| - 1] + [rules[|rules| - 1]];
    }
  }

  /** Two orders of the same puts agree on every key whose claims have distinct creation times. */
  lemma PutOrderIrrelevant(c: Cache, rules: seq<Rule>, rules': seq<Rule>, k: Key)
    requires Inv(c)
    requires multiset(rules) == multiset(rules')
    requires forall r, r' :: r in Claims(c, rules, k) && r' in Claims(c, rules, k) && r.createTime == r'.createTime ==> r == r'
    ensures LiveAt(PutAll(c, rules), k) == LiveAt(PutAll(c, rules'), k)
  {
    hide Inv; hide LiveAt; hide PutAll;
    FirstCreatedWins(c, rules, k);
    FirstCreatedWins(c, rules', k);
    forall r
      ensures r in Claims(c, rules, k) <==> r in Claims(c, rules', k)
    {
      ClaimsMembers(c, rules, k, r);
      ClaimsMembers(c, rules', k, r);
      assert r in rules <==> r in multiset(rules);
      assert r in rules' <==> r in multiset(rules');
    }
    var claims, claims' := Claims(c, rules, k), Claims(c, rules', k);
    var live, live' := LiveAt(PutAll(c, rules), k), LiveAt(PutAll(c, rules'), k);
    assert live.Some? ==> live.value in claims && live.value in claims';
    assert live'.Some? ==> live'.value in claims' && live'.value in claims;
    assert live.Some? <==> live'.Some?;
    if live.Some? {
      assert live.value.createTime == live'.value.createTime;
    }
  }
}
