/** What every ingress event keeps in ServerDataConfig: isolation of malformed ingresses and agreement of the
    two rendered tables. */
module ServerInvariants {
  import opened Kube
  import opened Names
  import opened RouteRules
  import opened RuleLists
  import opened Routing
  import opened ServerData

  // ---------------------------------------------------------------- the invariant

  function BasicFileNames(files: seq<BasicRouteRule>): set<string> {
    set b | b in files && b.cluster != ADVANCED_MODE :: b.cluster
  }

  function AdvancedFileNames(files: seq<AdvancedRouteRule>): set<string> {
    set a | a in files :: a.cluster
  }

  /** The clusters a rendered table names, ADVANCED_MODE aside. */
  function NamedClusters(t: RouteTable): set<string> {
    BasicFileNames(t.basic) + AdvancedFileNames(t.advanced)
  }

  /** Every live rule's condition builds. */
  ghost predicate AllBuild(c: Cache) {
    forall r :: Live(c, r) ==> Builds(r)
  }

  /** The hosts and paths of live rules are those addRule lets through, under the namespaced name of an ingress. */
  ghost predicate AllChecked(c: Cache) {
    forall r :: Live(c, r) ==> r.host != "" && r.path != "" && '/' in r.ingress
  }

  ghost predicate Integral(s: ServerState) {
    s.clusterConf == NamedClusters(s.routeTable)
  }

  ghost predicate CacheOk(c: Cache) {
    RouteRules.Inv(c) && AllBuild(c) && AllChecked(c)
  }

  // ---------------------------------------------------------------- rendering

  lemma {:induction false} AdvancedFilesBuild(rules: seq<Rule>)
    ensures AdvancedFiles(rules).Some? <==> forall r :: r in rules ==> Builds(r)
    ensures AdvancedFiles(rules).Some? ==> AdvancedFileNames(AdvancedFiles(rules).value) == set r | r in rules :: r.cluster
  {
    if rules != [] {
      var front, last := rules[..|rules| - 1], rules[|rules| - 1];
      AdvancedFilesBuild(front);
      assert rules == front + [last];
      assert Builds(last) <==> BuildCondition(last.host, last.path, last.annotations).Some?;
      hide BuildCondition; hide Builds;
      assert forall r :: r in rules <==> r in front || r == last;
      if AdvancedFiles(rules).Some? {
        var f := AdvancedRouteRule(AllOf(BuildCondition(last.host, last.path, last.annotations).value), last.cluster);
        AdvancedNamesStep(AdvancedFiles(front).value, f);
      }
    }
  }

  lemma AdvancedNamesStep(files: seq<AdvancedRouteRule>, f: AdvancedRouteRule)
    ensures AdvancedFileNames(files + [f]) == AdvancedFileNames(files) + {f.cluster}
  {
  }

  lemma {:induction false} BasicFilesNames(rules: seq<Rule>)
    ensures BasicFileNames(BasicFiles(rules)) == BasicNames(rules)
  {
    if rules == [] {
      assert BasicFiles(rules) == [];
    } else {
      var front, last := rules[..|rules| - 1], rules[|rules| - 1];
      BasicFilesNames(front);
      assert rules == front + [last];
      assert BasicFiles(rules) == BasicFiles(front) + [BasicFile(last)];
      BasicNamesStep(front, last);
    }
  }

  lemma BasicNamesStep(front: seq<Rule>, last: Rule)
    ensures BasicNames(front + [last]) == BasicNames(front) + if last.cluster != ADVANCED_MODE then {last.cluster} else {}
    ensures BasicFileNames(BasicFiles(front) + [BasicFile(last)]) ==
            BasicFileNames(BasicFiles(front)) + if last.cluster != ADVANCED_MODE then {last.cluster} else {}
  {
  }

  lemma NotBuildingIsAdvanced(c: Cache, r: Rule)
    requires RouteRules.Inv(c) && Live(c, r) && !Builds(r)
    ensures LiveAdvanced(c, r)
  {
  }

  /** updateRouteTable can only fail on a live rule whose condition does not build, or on the library's verdict. */
  lemma RenderFailsExactly(c: Cache, defaultBackend: string, e: Enumeration)
    requires RouteRules.Inv(c) && Enumerates(e, c.ruleMap)
    ensures Render(c, defaultBackend, e).Some? <==> AllBuild(c)
  {
    hide AdvancedFiles; hide GetBasic; hide GetAdvanced; hide RouteRules.Inv; hide Enumerates; hide LiveAdvanced; hide Builds; hide Live;
    var advanced := GetAdvanced(c.ruleMap, e);
    AdvancedFilesBuild(advanced);
    forall r
      ensures r in advanced ==> Live(c, r)
      ensures Live(c, r) && !Builds(r) ==> r in advanced
    {
      AdvancedExactly(c, e, r);
      if Live(c, r) && !Builds(r) {
        NotBuildingIsAdvanced(c, r);
      }
      assert LiveAdvanced(c, r) ==> Live(c, r) by { AdvancedIsLive(c, r); }
    }
  }

  lemma AdvancedIsLive(c: Cache, r: Rule)
    ensures LiveAdvanced(c, r) ==> Live(c, r)
  {
  }

  /** The clusters named by the rendered table are those configured for the same lists. */
  lemma RenderedIsConfigured(defaultBackend: string, basic: seq<Rule>, advanced: seq<Rule>)
    requires RenderLists(defaultBackend, basic, advanced).Some?
    ensures NamedClusters(RenderLists(defaultBackend, basic, advanced).value) == ConfClusters(defaultBackend, basic, advanced)
  {
    hide AdvancedFiles; hide BasicFiles; hide DefaultClusterName; hide Builds; hide BasicNames; hide BasicFileNames;
    hide AdvancedFileNames;
    AdvancedFilesBuild(advanced);
    BasicFilesNames(basic);
    var files := AdvancedFiles(advanced).value;
    if defaultBackend != "" && (basic != [] || advanced != []) {
      AdvancedNamesStep(files, AdvancedRouteRule(Always, DefaultClusterName(defaultBackend)));
    }
    assert files + [] == files;
  }

  /** Two get calls lead to the same configured clusters, whatever order each of them took. */
  lemma ConfiguredOnce(c: Cache, defaultBackend: string, e: Enumeration, e': Enumeration)
    requires RouteRules.Inv(c) && Enumerates(e, c.ruleMap) && Enumerates(e', c.ruleMap)
    ensures Configured(c, defaultBackend, e) == Configured(c, defaultBackend, e')
  {
    hide GetBasic; hide GetAdvanced; hide RouteRules.Inv; hide Enumerates; hide DefaultClusterName;
    var basic, basic', advanced, advanced' :=
      GetBasic(c.ruleMap, e), GetBasic(c.ruleMap, e'), GetAdvanced(c.ruleMap, e), GetAdvanced(c.ruleMap, e');
    forall r
      ensures r in basic <==> r in basic'
    {
      BasicMembers(c, e, r);
      BasicMembers(c, e', r);
    }
    forall r
      ensures r in advanced <==> r in advanced'
    {
      AdvancedExactly(c, e, r);
      AdvancedExactly(c, e', r);
    }
    SameMembers(defaultBackend, basic, basic', advanced, advanced');
  }

  lemma SameMembers(defaultBackend: string, basic: seq<Rule>, basic': seq<Rule>, advanced: seq<Rule>, advanced': seq<Rule>)
    requires forall r :: r in basic <==> r in basic'
    requires forall r :: r in advanced <==> r in advanced'
    ensures ConfClusters(defaultBackend, basic, advanced) == ConfClusters(defaultBackend, basic', advanced')
  {
    hide DefaultClusterName;
    SameEmptiness(basic, basic');
    SameEmptiness(advanced, advanced');
    assert BasicNames(basic) == BasicNames(basic');
    assert (set r | r in advanced :: r.cluster) == (set r | r in advanced' :: r.cluster);
  }

  lemma SameEmptiness(a: seq<Rule>, b: seq<Rule>)
    requires forall r :: r in a <==> r in b
    ensures a == [] <==> b == []
  {
    assert a != [] ==> a[0] in a;
    assert b != [] ==> b[0] in b;
  }

  // ---------------------------------------------------------------- the rule cache

  lemma PutLive(c: Cache, rule: Rule, r: Rule)
    requires RouteRules.Inv(c) && Live(RouteRules.Put(c, rule).0, r)
    ensures Live(c, r) || r == rule
  {
    hide *;
    PutKeepsInv(c, rule);
    PutLiveAt(c, rule, KeyOf(r));
    LiveRuleAtItsKey(c, r);
    LiveRuleAtItsKey(RouteRules.Put(c, rule).0, r);
  }

  /** Whatever updateCache does, the cache stays well formed and all it adds are checked rules of the ingress. */
  lemma {:induction false} UpdateCacheFacts(c: Cache, ingress: Ingress, paths: seq<(string, HttpPath)>, address: nat)
    requires RouteRules.Inv(c)
    ensures RouteRules.Inv(UpdateCache(c, ingress, paths, address).0)
    ensures forall r :: Live(UpdateCache(c, ingress, paths, address).0, r) ==> Live(c, r) || OwnRule(ingress, r)
  {
    if paths != [] {
      var front, last := paths[..|paths| - 1], paths[|paths| - 1];
      var (c1, ok) := UpdateCache(c, ingress, front, address);
      UpdateCacheFacts(c, ingress, front, address);
      if ok && CheckHost(last.0) && CheckPath(last.1.path) {
        var rule := RuleOf(ingress, last.0, last.1, address + |paths| - 1);
        PutKeepsInv(c1, rule);
        assert rule.ingress[|ingress.namespace|] == '/';
        assert OwnRule(ingress, rule);
        hide RouteRules.Inv; hide RouteRules.Put; hide Live; hide RuleOf;
        forall r | Live(RouteRules.Put(c1, rule).0, r)
          ensures Live(c, r) || OwnRule(ingress, r)
        {
          PutLive(c1, rule, r);
        }
      }
    }
  }

  predicate OwnRule(ingress: Ingress, r: Rule) {
    r.ingress == IngressName(ingress) && r.annotations == ingress.annotations && r.host != "" && r.path != "" && '/' in r.ingress
  }

  lemma DeleteLiveAll(c: Cache, ingress: string)
    requires RouteRules.Inv(c)
    ensures RouteRules.Inv(RouteRules.Delete(c, ingress))
    ensures forall r :: Live(RouteRules.Delete(c, ingress), r) <==> Live(c, r) && r.ingress != ingress
  {
    DeleteKeepsInv(c, ingress);
    forall r
      ensures Live(RouteRules.Delete(c, ingress), r) <==> Live(c, r) && r.ingress != ingress
    {
      DeleteLive(c, ingress, r);
    }
  }

  /** An ingress without an index entry has no live rule: the early returns on ContainsIngress are sound. */
  lemma UnindexedHasNoRule(c: Cache, ingress: string, r: Rule)
    requires RouteRules.Inv(c) && ingress !in c.ingress2Rule && Live(c, r)
    ensures r.ingress != ingress
  {
  }

  /** After the rules of the ingress are deleted and re-added, a live rule is either an older one of
      another ingress or carries the ingress's present annotations. */
  lemma AfterUpdateCacheFacts(s: ServerState, ingress: Ingress)
    requires RouteRules.Inv(s.cache)
    ensures var c := AfterUpdateCache(s, ingress).0.cache;
            && RouteRules.Inv(c)
            && forall r :: Live(c, r) ==> (Live(s.cache, r) && r.ingress != IngressName(ingress)) || OwnRule(ingress, r)
  {
    hide RouteRules.Inv; hide Live; hide RouteRules.Delete; hide UpdateCache; hide HostPaths;
    var name := IngressName(ingress);
    var deleted := if name in s.cache.ingress2Rule then RouteRules.Delete(s.cache, name) else s.cache;
    DeleteLiveAll(s.cache, name);
    assert forall r :: Live(deleted, r) ==> Live(s.cache, r) && r.ingress != name by {
      forall r | Live(deleted, r)
        ensures Live(s.cache, r) && r.ingress != name
      {
        if name !in s.cache.ingress2Rule {
          UnindexedHasNoRule(s.cache, name, r);
        }
      }
    }
    UpdateCacheFacts(deleted, ingress, HostPaths(ingress.rules), s.nextAddress);
  }

  /** Once a failed ingress's rules are gone, all that is left built before. */
  lemma OwnRulesGone(s: ServerState, ingress: Ingress)
    requires CacheOk(s.cache)
    ensures CacheOk(RouteRules.Delete(AfterUpdateCache(s, ingress).0.cache, IngressName(ingress)))
    ensures forall r :: Live(RouteRules.Delete(AfterUpdateCache(s, ingress).0.cache, IngressName(ingress)), r) ==>
              Live(s.cache, r) && r.ingress != IngressName(ingress)
  {
    hide RouteRules.Inv; hide Live; hide RouteRules.Delete; hide AfterUpdateCache; hide Builds;
    AfterUpdateCacheFacts(s, ingress);
    DeleteLiveAll(AfterUpdateCache(s, ingress).0.cache, IngressName(ingress));
  }

  // ---------------------------------------------------------------- ingress events

  /** A malformed ingress never gets past updateRouteTable, so the cache only ever keeps rules that build. */
  lemma UpdateIngressKeepsCacheOk(s: ServerState, defaultBackend: string, ingress: Ingress, how: Rendering)
    requires CacheOk(s.cache) && UpdatePossible(s, ingress, how)
    ensures CacheOk(UpdateIngress(s, defaultBackend, ingress, how).0.cache)
  {
    hide RouteRules.Inv; hide Live; hide RouteRules.Delete; hide AfterUpdateCache; hide Builds; hide Render; hide Configured; hide Enumerates;
    if ingress.rules != [] {
      OwnRulesGone(s, ingress);
      AfterUpdateCacheFacts(s, ingress);
      var (s1, cached) := AfterUpdateCache(s, ingress);
      if cached {
        RenderFailsExactly(s1.cache, defaultBackend, how.first);
      }
    }
  }

  lemma DeleteIngressKeepsCacheOk(s: ServerState, defaultBackend: string, namespace: string, name: string, how: Rendering)
    requires CacheOk(s.cache)
    ensures CacheOk(DeleteIngress(s, defaultBackend, namespace, name, how).cache)
  {
    hide RouteRules.Inv; hide Live; hide RouteRules.Delete; hide Builds; hide Render; hide Configured;
    DeleteLiveAll(s.cache, NamespacedName(namespace, name));
  }

  /** The error that DeleteIngress ignores never occurs while the library accepts. */
  lemma DeleteAlwaysRenders(s: ServerState, defaultBackend: string, namespace: string, name: string, how: Rendering)
    requires CacheOk(s.cache) && DeletePossible(s, namespace, name, how) && how.accepted
    requires NamespacedName(namespace, name) in s.cache.ingress2Rule
    ensures var s1 := s.(cache := RouteRules.Delete(s.cache, NamespacedName(namespace, name)));
            UpdateRouteTable(s1, defaultBackend, how.first, how.accepted).1
  {
    hide RouteRules.Inv; hide Live; hide RouteRules.Delete; hide Builds; hide Render; hide Enumerates;
    var c := RouteRules.Delete(s.cache, NamespacedName(namespace, name));
    DeleteLiveAll(s.cache, NamespacedName(namespace, name));
    RenderFailsExactly(c, defaultBackend, how.first);
  }

  lemma RerenderedIsIntegral(s: ServerState, defaultBackend: string, how: Rendering)
    requires RouteRules.Inv(s.cache) && Fits(how, s.cache) && UpdateRouteTable(s, defaultBackend, how.first, how.accepted).1
    ensures Integral(UpdateBfeClusterConf(UpdateRouteTable(s, defaultBackend, how.first, how.accepted).0, defaultBackend, how.second))
  {
    hide RouteRules.Inv; hide GetBasic; hide GetAdvanced; hide RenderLists; hide ConfClusters; hide NamedClusters; hide Enumerates;
    RenderedIsConfigured(defaultBackend, GetBasic(s.cache.ruleMap, how.first), GetAdvanced(s.cache.ruleMap, how.first));
    ConfiguredOnce(s.cache, defaultBackend, how.first, how.second);
  }

  /** Both tables are replaced together or not at all, whatever the library says. */
  lemma UpdateIngressKeepsIntegral(s: ServerState, defaultBackend: string, ingress: Ingress, how: Rendering)
    requires CacheOk(s.cache) && Integral(s) && UpdatePossible(s, ingress, how)
    ensures Integral(UpdateIngress(s, defaultBackend, ingress, how).0)
  {
    if ingress.rules != [] {
      AfterUpdateCacheFacts(s, ingress);
      var (s1, cached) := AfterUpdateCache(s, ingress);
      assert s1.routeTable == s.routeTable && s1.clusterConf == s.clusterConf;
      hide RouteRules.Inv; hide Live; hide RouteRules.Delete; hide AfterUpdateCache; hide Render; hide Configured; hide NamedClusters; hide Enumerates; hide AllBuild; hide AllChecked;
      if cached && UpdateRouteTable(s1, defaultBackend, how.first, how.accepted).1 {
        RerenderedIsIntegral(s1, defaultBackend, how);
      }
    }
  }

  lemma DeleteIngressKeepsIntegral(s: ServerState, defaultBackend: string, namespace: string, name: string, how: Rendering)
    requires CacheOk(s.cache) && Integral(s) && DeletePossible(s, namespace, name, how) && how.accepted
    ensures Integral(DeleteIngress(s, defaultBackend, namespace, name, how))
  {
    if NamespacedName(namespace, name) in s.cache.ingress2Rule {
      DeleteLiveAll(s.cache, NamespacedName(namespace, name));
      DeleteAlwaysRenders(s, defaultBackend, namespace, name, how);
      var s1 := s.(cache := RouteRules.Delete(s.cache, NamespacedName(namespace, name)));
      hide RouteRules.Inv; hide Live; hide RouteRules.Delete; hide Render; hide Configured; hide NamedClusters; hide Enumerates; hide CacheOk; hide UpdateRouteTable;
      RerenderedIsIntegral(s1, defaultBackend, how);
    }
  }

  /** A deletion leaves no live rule of the ingress and every rule of the others. */
  lemma DeleteIngressIsExact(s: ServerState, defaultBackend: string, namespace: string, name: string, how: Rendering, r: Rule)
    requires RouteRules.Inv(s.cache)
    ensures var s' := DeleteIngress(s, defaultBackend, namespace, name, how);
            Live(s'.cache, r) <==> Live(s.cache, r) && r.ingress != NamespacedName(namespace, name)
  {
    hide RouteRules.Inv; hide Live; hide RouteRules.Delete; hide Render; hide Configured;
    DeleteLive(s.cache, NamespacedName(namespace, name), r);
    if NamespacedName(namespace, name) !in s.cache.ingress2Rule && Live(s.cache, r) {
      UnindexedHasNoRule(s.cache, NamespacedName(namespace, name), r);
    }
  }
}
