/** Which of an ingress's paths ServerDataConfig.updateCache lets in, said of the rules before the update. */
module Admission {
  import opened Multimaps
  import opened Kube
  import opened Names
  import opened Annotations
  import opened RouteRules
  import opened RuleLists
  import opened ServerData
  import opened ServerInvariants
  import opened FiledRules
  import opened Routing

  // ---------------------------------------------------------------- one path

  type Paths = seq<(string, HttpPath)>

  /** The key a path's rule is filed under. */
  function PathKey(ingress: Ingress, path: (string, HttpPath)): Key {
    KeyOf(RuleOf(ingress, path.0, path.1, 0))
  }

  /** An illegal host, an illegal path, or an older rule that holds the path's key. */
  predicate Blocked(c: Cache, ingress: Ingress, path: (string, HttpPath)) {
    || !LegalHost(path.0) || !LegalPath(path.1.path)
    || var held := LiveAt(c, PathKey(ingress, path)); held.Some? && held.value.createTime < ingress.creationTimestamp
  }

  /** Nobody holds the key, or a younger rule does: a rule of the ingress would take it. */
  predicate Open(c: Cache, ingress: Ingress, k: Key) {
    LiveAt(c, k).None? || ingress.creationTimestamp < LiveAt(c, k).value.createTime
  }

  function FirstBlocked(c: Cache, ingress: Ingress, paths: Paths): (n: nat)
    ensures n <= |paths| && (n < |paths| ==> Blocked(c, ingress, paths[n]))
    ensures forall i :: 0 <= i < n ==> !Blocked(c, ingress, paths[i])
  {
    if paths == [] then 0 else
      var front := paths[..|paths| - 1];
      var n := FirstBlocked(c, ingress, front);
      assert forall i :: 0 <= i < |front| ==> front[i] == paths[i];
      if n < |front| then n else if Blocked(c, ingress, paths[|paths| - 1]) then |front| else |paths|
  }

  /** One of the first n paths has the key. */
  ghost predicate Reaches(ingress: Ingress, paths: Paths, n: nat, k: Key) {
    exists i :: 0 <= i < n && i < |paths| && PathKey(ingress, paths[i]) == k
  }

  lemma ReachesStep(ingress: Ingress, paths: Paths, n: nat, k: Key)
    requires paths != [] && n <= |paths|
    ensures Reaches(ingress, paths, n, k) <==>
            Reaches(ingress, paths[..|paths| - 1], n, k) || (n == |paths| && PathKey(ingress, paths[|paths| - 1]) == k)
  {
    hide PathKey;
    var front := paths[..|paths| - 1];
    if Reaches(ingress, paths, n, k) {
      var i :| 0 <= i < n && i < |paths| && PathKey(ingress, paths[i]) == k;
      assert i < |front| ==> PathKey(ingress, front[i]) == k;
    }
    if Reaches(ingress, front, n, k) {
      var i :| 0 <= i < n && i < |front| && PathKey(ingress, front[i]) == k;
      assert PathKey(ingress, paths[i]) == k;
    }
  }

  /** The rule of the key is one that the ingress's update has put there. */
  predicate OwnAt(c: Cache, ingress: Ingress, k: Key) {
    var held := LiveAt(c, k);
    held.Some? && held.value.ingress == IngressName(ingress) && held.value.createTime == ingress.creationTimestamp
  }

  lemma AddRuleAt(c: Cache, ingress: Ingress, path: (string, HttpPath), address: nat, k: Key)
    requires RouteRules.Inv(c)
    ensures var (c', ok) := AddRule(c, ingress, path.0, path.1, address);
            && ok == !Blocked(c, ingress, path)
            && if ok && PathKey(ingress, path) == k && Open(c, ingress, k) then OwnAt(c', ingress, k) else LiveAt(c', k) == LiveAt(c, k)
  {
    hide RouteRules.Inv; hide LiveAt; hide RouteRules.Put; hide KeyOf; hide PathKey; hide CheckHost; hide CheckPath; hide LegalHost; hide LegalPath; hide RuleHost; hide RulePath;
    hide ClusterName;
    var rule := RuleOf(ingress, path.0, path.1, address);
    CheckHostExactly(path.0);
    CheckPathExactly(path.1.path);
    KeyOfPath(ingress, path, address);
    PutAdmits(c, rule);
    PutLiveAt(c, rule, k);
  }

  /** What updateCache makes of one key, and when it succeeds: the paths before the first blocked one take the open keys. */
  ghost predicate CachedAt(c: Cache, ingress: Ingress, paths: Paths, c': Cache, k: Key) {
    if Reaches(ingress, paths, FirstBlocked(c, ingress, paths), k) && Open(c, ingress, k) then OwnAt(c', ingress, k) else LiveAt(c', k) == LiveAt(c, k)
  }

  lemma {:induction false} UpdateCacheAt(c: Cache, ingress: Ingress, paths: Paths, address: nat, k: Key)
    requires RouteRules.Inv(c)
    ensures CachedAt(c, ingress, paths, UpdateCache(c, ingress, paths, address).0, k)
    ensures UpdateCache(c, ingress, paths, address).1 <==> FirstBlocked(c, ingress, paths) == |paths|
  {
    hide *;
    if paths == [] {
      NothingCached(c, ingress, address, k);
      return;
    }
    var front, last := paths[..|paths| - 1], paths[|paths| - 1];
    var c1 := UpdateCache(c, ingress, front, address).0;
    UpdateCacheAt(c, ingress, front, address, k);
    UpdateCacheAt(c, ingress, front, address, PathKey(ingress, last));
    UpdateCacheFacts(c, ingress, front, address);
    AddRuleAt(c1, ingress, last, address + |paths| - 1, k);
    StillBlocked(c, ingress, front, c1, last);
    ReachesStep(ingress, paths, FirstBlocked(c, ingress, paths), k);
    CachedStep(c, ingress, paths, address, k);
  }

  lemma NothingCached(c: Cache, ingress: Ingress, address: nat, k: Key)
    ensures CachedAt(c, ingress, [], UpdateCache(c, ingress, [], address).0, k) && UpdateCache(c, ingress, [], address).1
    ensures FirstBlocked(c, ingress, []) == 0
  {
  }

  /** The ingress's own new rules block none of its paths. */
  lemma StillBlocked(c: Cache, ingress: Ingress, paths: Paths, c': Cache, path: (string, HttpPath))
    requires CachedAt(c, ingress, paths, c', PathKey(ingress, path))
    ensures Blocked(c', ingress, path) <==> Blocked(c, ingress, path)
  {
    hide LiveAt; hide PathKey; hide Reaches; hide LegalHost; hide LegalPath;
  }

  lemma CachedStep(c: Cache, ingress: Ingress, paths: Paths, address: nat, k: Key)
    requires paths != []
    requires var front := paths[..|paths| - 1]; var (c1, ok) := UpdateCache(c, ingress, front, address);
             CachedAt(c, ingress, front, c1, k) && (ok <==> FirstBlocked(c, ingress, front) == |front|)
    requires var front, last := paths[..|paths| - 1], paths[|paths| - 1]; var c1 := UpdateCache(c, ingress, front, address).0;
             var (c2, ok2) := AddRule(c1, ingress, last.0, last.1, address + |paths| - 1);
             && ok2 == !Blocked(c1, ingress, last)
             && (if ok2 && PathKey(ingress, last) == k && Open(c1, ingress, k) then OwnAt(c2, ingress, k) else LiveAt(c2, k) == LiveAt(c1, k))
             && (Blocked(c1, ingress, last) <==> Blocked(c, ingress, last))
    requires var n := FirstBlocked(c, ingress, paths);
             Reaches(ingress, paths, n, k) <==>
             Reaches(ingress, paths[..|paths| - 1], n, k) || (n == |paths| && PathKey(ingress, paths[|paths| - 1]) == k)
    ensures CachedAt(c, ingress, paths, UpdateCache(c, ingress, paths, address).0, k)
    ensures UpdateCache(c, ingress, paths, address).1 <==> FirstBlocked(c, ingress, paths) == |paths|
  {
    hide AddRule; hide LiveAt; hide PathKey; hide Blocked;
  }

  // ---------------------------------------------------------------- a whole update

  /** What an update starts from: the rules before it without the ingress's own. */
  function Cleared(s: ServerState, ingress: Ingress): Cache {
    RouteRules.Delete(s.cache, IngressName(ingress))
  }

  lemma DeleteUnindexed(c: Cache, ingress: string)
    requires RouteRules.Inv(c) && ingress !in c.ingress2Rule
    ensures RouteRules.Delete(c, ingress) == c
  {
    InvIsNormal(c);
    DeleteKeepsInv(c, ingress);
    InvIsNormal(RouteRules.Delete(c, ingress));
    forall h, p
      ensures Bucket(RouteRules.Delete(c, ingress).ruleMap, h, p) == Bucket(c.ruleMap, h, p)
    {
      BucketAfterDelete(c, ingress, h, p);
      var b := Bucket(c.ruleMap, h, p);
      forall i | 0 <= i < |b|
        ensures b[i].ingress != ingress
      {
        RuleOfBucket(c, h, p, b[i]);
        UnindexedHasNoRule(c, ingress, b[i]);
      }
      KeepsAll(b, ingress);
    }
    SameBuckets(RouteRules.Delete(c, ingress).ruleMap, c.ruleMap);
    assert RemoveKey(c.ingress2Rule, ingress) == c.ingress2Rule;
  }

  lemma AfterCaching(s: ServerState, ingress: Ingress)
    requires RouteRules.Inv(s.cache)
    ensures RouteRules.Inv(Cleared(s, ingress))
    ensures var (s1, cached) := AfterUpdateCache(s, ingress);
            (s1.cache, cached) == UpdateCache(Cleared(s, ingress), ingress, HostPaths(ingress.rules), s.nextAddress)
  {
    hide RouteRules.Inv; hide RouteRules.Delete; hide UpdateCache; hide HostPaths;
    DeleteKeepsInv(s.cache, IngressName(ingress));
    if IngressName(ingress) !in s.cache.ingress2Rule {
      DeleteUnindexed(s.cache, IngressName(ingress));
    }
  }

  /** In terms of the rules before the update, only another ingress's rule blocks a path. */
  lemma BlockedByOthers(s: ServerState, ingress: Ingress, path: (string, HttpPath))
    requires RouteRules.Inv(s.cache)
    ensures var held := LiveAt(s.cache, PathKey(ingress, path));
            Blocked(Cleared(s, ingress), ingress, path) <==>
            !LegalHost(path.0) || !LegalPath(path.1.path) ||
            (held.Some? && held.value.ingress != IngressName(ingress) && held.value.createTime < ingress.creationTimestamp)
  {
    DeleteLiveAt(s.cache, IngressName(ingress), PathKey(ingress, path));
  }

  /** Caching the rules succeeds exactly when no path is blocked by the rules of others before the update. */
  lemma CachedExactly(s: ServerState, ingress: Ingress)
    requires RouteRules.Inv(s.cache)
    ensures var paths := HostPaths(ingress.rules);
            AfterUpdateCache(s, ingress).1 <==> forall i :: 0 <= i < |paths| ==> !Blocked(Cleared(s, ingress), ingress, paths[i])
  {
    hide *;
    AfterCaching(s, ingress);
    UpdateCacheAt(Cleared(s, ingress), ingress, HostPaths(ingress.rules), s.nextAddress, Key("", "", "", ""));
    var n := FirstBlocked(Cleared(s, ingress), ingress, HostPaths(ingress.rules));
  }

  /** When no path is blocked, the ingress gets a live rule exactly when one of its paths' keys is open. */
  lemma OwnRuleExactly(s: ServerState, ingress: Ingress)
    requires RouteRules.Inv(s.cache) && AfterUpdateCache(s, ingress).1
    ensures var paths := HostPaths(ingress.rules); var c := AfterUpdateCache(s, ingress).0.cache;
            (exists r :: Live(c, r) && r.ingress == IngressName(ingress)) <==>
            exists i :: 0 <= i < |paths| && Open(Cleared(s, ingress), ingress, PathKey(ingress, paths[i]))
  {
    hide *;
    var paths, c0, c := HostPaths(ingress.rules), Cleared(s, ingress), AfterUpdateCache(s, ingress).0.cache;
    AfterCaching(s, ingress);
    if i :| 0 <= i < |paths| && Open(c0, ingress, PathKey(ingress, paths[i])) {
      UpdateCacheAt(c0, ingress, paths, s.nextAddress, PathKey(ingress, paths[i]));
      OpenIsTaken(c0, ingress, paths, c, i);
      OwnIsLive(s, ingress, PathKey(ingress, paths[i]));
    }
    if r :| Live(c, r) && r.ingress == IngressName(ingress) {
      UpdateCacheAt(c0, ingress, paths, s.nextAddress, KeyOf(r));
      var i := TakenIsOpen(s, ingress, r);
    }
  }

  lemma OpenIsTaken(c: Cache, ingress: Ingress, paths: Paths, c': Cache, i: nat)
    requires i < |paths| && FirstBlocked(c, ingress, paths) == |paths| && Open(c, ingress, PathKey(ingress, paths[i]))
    requires CachedAt(c, ingress, paths, c', PathKey(ingress, paths[i]))
    ensures OwnAt(c', ingress, PathKey(ingress, paths[i]))
  {
    hide Open; hide OwnAt; hide PathKey;
  }

  lemma OwnIsLive(s: ServerState, ingress: Ingress, k: Key)
    requires RouteRules.Inv(s.cache) && OwnAt(AfterUpdateCache(s, ingress).0.cache, ingress, k)
    ensures exists r :: Live(AfterUpdateCache(s, ingress).0.cache, r) && r.ingress == IngressName(ingress)
  {
    AfterUpdateCacheFacts(s, ingress);
    LiveAtHasKey(AfterUpdateCache(s, ingress).0.cache, k);
  }

  lemma TakenIsOpen(s: ServerState, ingress: Ingress, r: Rule) returns (i: nat)
    requires RouteRules.Inv(s.cache)
    requires Live(AfterUpdateCache(s, ingress).0.cache, r) && r.ingress == IngressName(ingress)
    requires CachedAt(Cleared(s, ingress), ingress, HostPaths(ingress.rules), AfterUpdateCache(s, ingress).0.cache, KeyOf(r))
    ensures var paths := HostPaths(ingress.rules); i < |paths| && Open(Cleared(s, ingress), ingress, PathKey(ingress, paths[i]))
  {
    hide RouteRules.Inv; hide RouteRules.Delete; hide AfterUpdateCache; hide LiveAt; hide Live; hide KeyOf; hide HostPaths;
    var c0, c, paths := Cleared(s, ingress), AfterUpdateCache(s, ingress).0.cache, HostPaths(ingress.rules);
    AfterUpdateCacheFacts(s, ingress);
    DeleteKeepsInv(s.cache, IngressName(ingress));
    DeleteLive(s.cache, IngressName(ingress), r);
    LiveRuleAtItsKey(c, r);
    LiveRuleAtItsKey(c0, r);
    i :| 0 <= i < |paths| && PathKey(ingress, paths[i]) == KeyOf(r);
  }

  // ---------------------------------------------------------------- the rules an update brings in

  /** Index of the first path with the given key, or the number of paths. */
  function FirstAt(ingress: Ingress, paths: Paths, k: Key): (n: nat)
    ensures n <= |paths| && (n < |paths| ==> PathKey(ingress, paths[n]) == k)
    ensures forall i :: 0 <= i < n ==> PathKey(ingress, paths[i]) != k
  {
    if paths == [] then 0 else
      var front := paths[..|paths| - 1];
      var n := FirstAt(ingress, front, k);
      assert forall i :: 0 <= i < |front| ==> front[i] == paths[i];
      if n < |front| then n else if PathKey(ingress, paths[|paths| - 1]) == k then |front| else |paths|
  }

  /** The rule that a successful update files under the key: of the first path with that key, if the key is open. */
  function RuleAt(c: Cache, ingress: Ingress, paths: Paths, address: nat, k: Key): Option<Rule> {
    var n := FirstAt(ingress, paths, k);
    if n < |paths| && Open(c, ingress, k) then Some(RuleOf(ingress, paths[n].0, paths[n].1, address + n)) else None
  }

  lemma {:induction false} CachedRule(c: Cache, ingress: Ingress, paths: Paths, address: nat, k: Key)
    requires RouteRules.Inv(c) && UpdateCache(c, ingress, paths, address).1
    ensures LiveAt(UpdateCache(c, ingress, paths, address).0, k) ==
            if RuleAt(c, ingress, paths, address, k).Some? then RuleAt(c, ingress, paths, address, k) else LiveAt(c, k)
  {
    hide RouteRules.Inv; hide LiveAt; hide RouteRules.Put; hide CheckHost; hide CheckPath; hide KeyOf; hide RuleHost; hide RulePath; hide ClusterName;
    if paths != [] {
      var front, last := paths[..|paths| - 1], paths[|paths| - 1];
      var c1 := UpdateCache(c, ingress, front, address).0;
      var rule := RuleOf(ingress, last.0, last.1, address + |paths| - 1);
      CachedRule(c, ingress, front, address, k);
      UpdateCacheFacts(c, ingress, front, address);
      KeyOfPath(ingress, last, address + |paths| - 1);
      PutLiveAt(c1, rule, k);
    }
  }

  lemma KeyOfPath(ingress: Ingress, path: (string, HttpPath), address: nat)
    ensures KeyOf(RuleOf(ingress, path.0, path.1, address)) == PathKey(ingress, path)
  {
  }

  /** Rule r is the one that the first path with its key brings in, the key being open. */
  ghost predicate BroughtIn(s: ServerState, ingress: Ingress, r: Rule) {
    RuleAt(Cleared(s, ingress), ingress, HostPaths(ingress.rules), s.nextAddress, KeyOf(r)) == Some(r)
  }

  /** The live rules of an ingress after a successful update: when it has rules, exactly those that its paths bring in, whatever
      it had before; without rules nothing changes. */
  lemma OwnRulesAfterUpdate(s: ServerState, defaultBackend: string, ingress: Ingress, how: Rendering, r: Rule)
    requires RouteRules.Inv(s.cache) && UpdateIngress(s, defaultBackend, ingress, how).1 && r.ingress == IngressName(ingress)
    ensures Live(UpdateIngress(s, defaultBackend, ingress, how).0.cache, r) <==>
            if ingress.rules == [] then Live(s.cache, r) else BroughtIn(s, ingress, r)
  {
    hide RouteRules.Inv; hide Live; hide LiveAt; hide KeyOf; hide AfterUpdateCache; hide UpdateCache; hide HostPaths; hide Render; hide Configured;
    hide RouteRules.Delete; hide RuleAt;
    if ingress.rules != [] {
      var c0, paths := Cleared(s, ingress), HostPaths(ingress.rules);
      AfterCaching(s, ingress);
      AfterUpdateCacheFacts(s, ingress);
      CachedRule(c0, ingress, paths, s.nextAddress, KeyOf(r));
      LiveRuleAtItsKey(AfterUpdateCache(s, ingress).0.cache, r);
      LiveRuleAtItsKey(c0, r);
      DeleteLive(s.cache, IngressName(ingress), r);
    }
  }

  /** Every live rule that a successful update leaves its ingress is that of one of its paths: it serves exactly the requests this
      path is for, from the path's cluster. */
  lemma OwnRuleServes(s: ServerState, defaultBackend: string, ingress: Ingress, how: Rendering, r: Rule) returns (i: nat)
    requires RouteRules.Inv(s.cache) && ingress.rules != [] && UpdateIngress(s, defaultBackend, ingress, how).1
    requires r.ingress == IngressName(ingress) && Live(UpdateIngress(s, defaultBackend, ingress, how).0.cache, r)
    ensures var paths := HostPaths(ingress.rules);
            && i < |paths| && Serves(r, ingress, paths[i].0, paths[i].1)
            && Open(Cleared(s, ingress), ingress, PathKey(ingress, paths[i]))
            && forall j :: 0 <= j < i ==> PathKey(ingress, paths[j]) != PathKey(ingress, paths[i])
  {
    hide *;
    OwnRulesAfterUpdate(s, defaultBackend, ingress, how, r);
    i := BroughtInBy(s, ingress, r);
    SucceededIsUnblocked(s, defaultBackend, ingress, how, i);
    RuleServes(ingress, HostPaths(ingress.rules)[i], s.nextAddress + i);
  }

  /** Every path with an open key gets such a rule, unless an earlier path of the ingress has the same key. */
  lemma OpenPathIsServed(s: ServerState, defaultBackend: string, ingress: Ingress, how: Rendering, i: nat) returns (r: Rule)
    requires RouteRules.Inv(s.cache) && ingress.rules != [] && UpdateIngress(s, defaultBackend, ingress, how).1
    requires var paths := HostPaths(ingress.rules);
             && i < |paths| && Open(Cleared(s, ingress), ingress, PathKey(ingress, paths[i]))
             && forall j :: 0 <= j < i ==> PathKey(ingress, paths[j]) != PathKey(ingress, paths[i])
    ensures var path := HostPaths(ingress.rules)[i];
            Live(UpdateIngress(s, defaultBackend, ingress, how).0.cache, r) && Serves(r, ingress, path.0, path.1)
  {
    hide *;
    var path := HostPaths(ingress.rules)[i];
    r := RuleOf(ingress, path.0, path.1, s.nextAddress + i);
    FirstOpenIsBroughtIn(s, ingress, i);
    SucceededIsUnblocked(s, defaultBackend, ingress, how, i);
    RuleServes(ingress, path, s.nextAddress + i);
    OwnRulesAfterUpdate(s, defaultBackend, ingress, how, r);
  }

  /** The rule serves the requests that the path of the ingress is for, and carries the ingress's own data. */
  ghost predicate Serves(r: Rule, ingress: Ingress, host: string, p: HttpPath) {
    && (forall q :: Matches(r, q) <==> Admits(ingress, host, p, q))
    && r.ingress == IngressName(ingress) && r.cluster == ClusterName(r.ingress, p.backend)
    && r.annotations == ingress.annotations && r.createTime == ingress.creationTimestamp
  }

  lemma RuleServes(ingress: Ingress, path: (string, HttpPath), address: nat)
    requires LegalHost(path.0) && LegalPath(path.1.path)
    ensures Serves(RuleOf(ingress, path.0, path.1, address), ingress, path.0, path.1)
    ensures RuleOf(ingress, path.0, path.1, address).ingress == IngressName(ingress)
  {
    hide Matches; hide Admits; hide LegalHost; hide LegalPath; hide ClusterName; hide RuleHost; hide RulePath;
    forall q
      ensures Matches(RuleOf(ingress, path.0, path.1, address), q) <==> Admits(ingress, path.0, path.1, q)
      ensures RuleOf(ingress, path.0, path.1, address).cluster == ClusterName(IngressName(ingress), path.1.backend)
    {
      RuleServesPath(ingress, path.0, path.1, address, q);
    }
  }

  lemma BroughtInBy(s: ServerState, ingress: Ingress, r: Rule) returns (i: nat)
    requires BroughtIn(s, ingress, r)
    ensures var paths := HostPaths(ingress.rules);
            && i < |paths| && r == RuleOf(ingress, paths[i].0, paths[i].1, s.nextAddress + i)
            && Open(Cleared(s, ingress), ingress, PathKey(ingress, paths[i]))
            && forall j :: 0 <= j < i ==> PathKey(ingress, paths[j]) != PathKey(ingress, paths[i])
  {
    hide Open; hide HostPaths; hide KeyOf; hide PathKey; hide RuleOf; hide Cleared;
    i := FirstAt(ingress, HostPaths(ingress.rules), KeyOf(r));
  }

  lemma FirstOpenIsBroughtIn(s: ServerState, ingress: Ingress, i: nat)
    requires var paths := HostPaths(ingress.rules);
             && i < |paths| && Open(Cleared(s, ingress), ingress, PathKey(ingress, paths[i]))
             && forall j :: 0 <= j < i ==> PathKey(ingress, paths[j]) != PathKey(ingress, paths[i])
    ensures var path := HostPaths(ingress.rules)[i]; BroughtIn(s, ingress, RuleOf(ingress, path.0, path.1, s.nextAddress + i))
  {
    hide Open; hide HostPaths; hide KeyOf; hide PathKey; hide RuleOf; hide Cleared; hide FirstAt;
    var paths := HostPaths(ingress.rules);
    KeyOfPath(ingress, paths[i], s.nextAddress + i);
    assert FirstAt(ingress, paths, PathKey(ingress, paths[i])) == i;
  }

  /** A successful update has no blocked path. */
  lemma SucceededIsUnblocked(s: ServerState, defaultBackend: string, ingress: Ingress, how: Rendering, i: nat)
    requires RouteRules.Inv(s.cache) && ingress.rules != [] && UpdateIngress(s, defaultBackend, ingress, how).1 && i < |HostPaths(ingress.rules)|
    ensures LegalHost(HostPaths(ingress.rules)[i].0) && LegalPath(HostPaths(ingress.rules)[i].1.path)
  {
    hide LegalHost; hide LegalPath; hide HostPaths; hide AfterUpdateCache; hide Render; hide Configured; hide RouteRules.Inv; hide PathKey; hide LiveAt;
    hide Cleared;
    CachedExactly(s, ingress);
    assert !Blocked(Cleared(s, ingress), ingress, HostPaths(ingress.rules)[i]);
  }

  /** What a path brings in has a new address. */
  lemma BroughtInIsNew(s: ServerState, ingress: Ingress, r: Rule)
    requires BroughtIn(s, ingress, r)
    ensures r.address >= s.nextAddress && r.ingress == IngressName(ingress)
  {
    hide FirstAt; hide Open; hide KeyOf; hide HostPaths; hide RuleHost; hide RulePath; hide ClusterName;
  }

  /** A path with an open key brings a rule in. */
  lemma OpenBringsIn(s: ServerState, ingress: Ingress, i: nat) returns (r: Rule)
    requires var paths := HostPaths(ingress.rules); i < |paths| && Open(Cleared(s, ingress), ingress, PathKey(ingress, paths[i]))
    ensures BroughtIn(s, ingress, r)
  {
    hide Open; hide HostPaths; hide KeyOf; hide PathKey; hide RuleOf;
    var paths := HostPaths(ingress.rules);
    var n := FirstAt(ingress, paths, PathKey(ingress, paths[i]));
    r := RuleOf(ingress, paths[n].0, paths[n].1, s.nextAddress + n);
    KeyOfPath(ingress, paths[n], s.nextAddress + n);
  }

  /** An update leaves an ingress the rules it had exactly when it brings no rules at all, or when there were none and none gets
      in. The first case is an ingress whose rules were removed: it stays routed as before. */
  lemma FormerRulesStayExactly(s: ServerState, defaultBackend: string, ingress: Ingress, how: Rendering)
    requires RouteRules.Inv(s.cache) && UpdateIngress(s, defaultBackend, ingress, how).1
    requires forall r :: Live(s.cache, r) ==> r.address < s.nextAddress
    ensures var c', paths := UpdateIngress(s, defaultBackend, ingress, how).0.cache, HostPaths(ingress.rules);
            (forall r: Rule :: r.ingress == IngressName(ingress) ==> (Live(c', r) <==> Live(s.cache, r))) <==>
            || ingress.rules == []
            || ((forall r :: Live(s.cache, r) ==> r.ingress != IngressName(ingress)) &&
                (forall i :: 0 <= i < |paths| ==> !Open(Cleared(s, ingress), ingress, PathKey(ingress, paths[i]))))
  {
    hide RouteRules.Inv; hide Live; hide UpdateIngress; hide HostPaths; hide Open; hide PathKey; hide BroughtIn; hide Cleared;
    var c', paths := UpdateIngress(s, defaultBackend, ingress, how).0.cache, HostPaths(ingress.rules);
    forall r: Rule | r.ingress == IngressName(ingress)
      ensures Live(c', r) <==> if ingress.rules == [] then Live(s.cache, r) else BroughtIn(s, ingress, r)
      ensures BroughtIn(s, ingress, r) ==> !Live(s.cache, r) && exists i :: 0 <= i < |paths| && Open(Cleared(s, ingress), ingress, PathKey(ingress, paths[i]))
    {
      OwnRulesAfterUpdate(s, defaultBackend, ingress, how, r);
      if BroughtIn(s, ingress, r) {
        BroughtInIsNew(s, ingress, r);
        BroughtInIsOpen(s, ingress, r);
      }
    }
    if i :| 0 <= i < |paths| && Open(Cleared(s, ingress), ingress, PathKey(ingress, paths[i])) {
      var r := OpenBringsIn(s, ingress, i);
      BroughtInIsNew(s, ingress, r);
    }
  }

  lemma BroughtInIsOpen(s: ServerState, ingress: Ingress, r: Rule)
    requires BroughtIn(s, ingress, r)
    ensures exists i :: 0 <= i < |HostPaths(ingress.rules)| && Open(Cleared(s, ingress), ingress, PathKey(ingress, HostPaths(ingress.rules)[i]))
  {
    hide Open; hide HostPaths; hide KeyOf; hide PathKey; hide RuleOf; hide Cleared;
    var n := FirstAt(ingress, HostPaths(ingress.rules), KeyOf(r));
    assert Open(Cleared(s, ingress), ingress, PathKey(ingress, HostPaths(ingress.rules)[n]));
  }

  // ---------------------------------------------------------------- when an update fails

  /** Which error an update returns, read off the rules before it: with the library accepting, it fails exactly when one of its
      paths is blocked, or when its own annotation is malformed and one of its paths would get a rule in. */
  lemma UpdateFailsOnlyByItself(s: ServerState, defaultBackend: string, ingress: Ingress, how: Rendering)
    requires CacheOk(s.cache) && UpdatePossible(s, ingress, how) && how.accepted && ingress.rules != []
    ensures var paths, c := HostPaths(ingress.rules), Cleared(s, ingress);
            !UpdateIngress(s, defaultBackend, ingress, how).1 <==>
            (exists i :: 0 <= i < |paths| && Blocked(c, ingress, paths[i])) ||
            (GetRouteExpression(ingress.annotations).None? && exists i :: 0 <= i < |paths| && Open(c, ingress, PathKey(ingress, paths[i])))
  {
    hide RouteRules.Inv; hide Live; hide Cleared; hide AfterUpdateCache; hide Render; hide Configured; hide Enumerates; hide GetRouteExpression;
    hide Blocked; hide Open; hide HostPaths;
    CachedExactly(s, ingress);
    var (s1, cached) := AfterUpdateCache(s, ingress);
    if cached {
      OwnRuleExactly(s, ingress);
      RenderedUnlessMalformed(s, ingress, how.first, defaultBackend);
    }
  }

  /** Of all live rules only the ingress's own may not build. */
  lemma RenderedUnlessMalformed(s: ServerState, ingress: Ingress, e: Enumeration, defaultBackend: string)
    requires CacheOk(s.cache) && Enumerates(e, AfterUpdateCache(s, ingress).0.cache.ruleMap)
    ensures var c := AfterUpdateCache(s, ingress).0.cache;
            Render(c, defaultBackend, e).Some? <==>
            GetRouteExpression(ingress.annotations).Some? || !exists r :: Live(c, r) && r.ingress == IngressName(ingress)
  {
    hide RouteRules.Inv; hide Live; hide AfterUpdateCache; hide Render; hide Enumerates; hide GetRouteExpression;
    AfterUpdateCacheFacts(s, ingress);
    RenderFailsExactly(AfterUpdateCache(s, ingress).0.cache, defaultBackend, e);
  }
}
