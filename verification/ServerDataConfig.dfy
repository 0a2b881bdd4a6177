/** ServerDataConfig (internal/bfeConfig/configs/serverDataConfig.go) as the source writes it, over its rule cache object. */
module ServerDataConfig {
  import opened Multimaps
  import opened Kube
  import opened Names
  import opened RouteRules
  import opened RuleLists
  import RuleOrder
  import opened Routing
  import opened ServerData
  import opened RouteRuleCache
  import opened Reloads
  import opened Documents

  class ServerDataConfig {
    const defaultBackend: string

    var hostTableVersion: Reloads.Version
    var routeTableVersion: Reloads.Version
    var bfeClusterConfVersion: Reloads.Version

    const routeRuleCache: HttpRouteRuleCache
    var nextAddress: nat

    const hostTableConfVersion: Reloads.Version
    var routeTableFile: ServerData.RouteTable
    var routeTableFileVersion: Reloads.Version
    var bfeClusterConf: set<string>
    var clusterConfVersion: Reloads.Version

    var clock: Reloads.Version

    ghost function State(): ServerState
      reads this, routeRuleCache
    {
      ServerState(routeRuleCache.State(), nextAddress, routeTableFile, bfeClusterConf,
                  hostTableConfVersion, routeTableFileVersion, clusterConfVersion, clock)
    }

    ghost function Active(): ServerActive
      reads `hostTableVersion, `routeTableVersion, `bfeClusterConfVersion
    {
      ServerActive(hostTableVersion, routeTableVersion, bfeClusterConfVersion)
    }

    ghost predicate Valid()
      reads routeRuleCache
    {
      routeRuleCache.Valid()
    }

    constructor (defaultBackend: string, version: Reloads.Version)
      ensures Valid() && fresh(routeRuleCache)
      ensures State() == ServerData.InitialState(version) && Active() == ServerActive(0, 0, 0)
      ensures this.defaultBackend == defaultBackend
    {
      this.defaultBackend := defaultBackend;
      hostTableVersion, routeTableVersion, bfeClusterConfVersion := 0, 0, 0;
      routeRuleCache := new HttpRouteRuleCache();
      nextAddress := 0;
      hostTableConfVersion := version;
      routeTableFile, routeTableFileVersion := ServerData.RouteTable([], []), version;
      bfeClusterConf, clusterConfVersion := {}, version;
      clock := version;
    }

    /** ok is false when the source returns an error; how records the two map iterations of the rendering. */
    method UpdateIngress(ingress: Ingress, accepted: bool) returns (ok: bool, ghost how: Rendering)
      requires Valid()
      modifies this, routeRuleCache
      ensures Valid() && Active() == old(Active())
      ensures how.accepted == accepted && UpdatePossible(old(State()), ingress, how)
      ensures Updates(old(State()), defaultBackend, ingress, how, State(), ok)
    {
      hide *;
      how := Rendering(Enumeration([], map[]), accepted, Enumeration([], map[]));
      ghost var s := State();
      if |ingress.rules| == 0 {
        NothingToUpdate(s, defaultBackend, ingress, how);
        return true, how;
      }
      var cached := ReplaceRules(ingress);
      ghost var s1 := State();
      if !cached {
        DropRules(NamespacedName(ingress.namespace, ingress.name));
        NotCached(s, s1, State(), defaultBackend, ingress, how);
        return false, how;
      }
      var rendered, first := UpdateRouteTable(accepted);
      ghost var s2 := State();
      ghost var second := first;
      if rendered {
        second := UpdateBfeClusterConf();
      } else {
        DropRules(NamespacedName(ingress.namespace, ingress.name));
      }
      how := Rendering(first, accepted, second);
      Rendered(s, s1, s2, State(), defaultBackend, ingress, how, rendered);
      return rendered, how;
    }

    /** Deletes the rules of the existing ingress and adds the new ones. */
    method ReplaceRules(ingress: Ingress) returns (ok: bool)
      requires Valid()
      modifies this`nextAddress, routeRuleCache
      ensures Valid() && Active() == old(Active())
      ensures Caches(old(State()), ingress, State(), ok)
    {
      var ingressName := NamespacedName(ingress.namespace, ingress.name);
      var known := routeRuleCache.ContainsIngress(ingressName);
      if known {
        routeRuleCache.Delete(ingressName);
      }
      ok := UpdateCache(ingress);
    }

    method DropRules(ingressName: string)
      requires Valid()
      modifies routeRuleCache
      ensures Valid() && Active() == old(Active())
      ensures Drops(old(State()), ingressName, State())
    {
      hide Inv; hide RouteRules.Delete;
      routeRuleCache.Delete(ingressName);
    }

    method DeleteIngress(namespace: string, name: string, accepted: bool) returns (ghost how: Rendering)
      requires Valid()
      modifies this, routeRuleCache
      ensures Valid() && Active() == old(Active())
      ensures how.accepted == accepted && DeletePossible(old(State()), namespace, name, how)
      ensures Deletes(old(State()), defaultBackend, namespace, name, how, State())
    {
      assert State().cache.ingress2Rule == routeRuleCache.ingress2Rule;
      hide *;
      how := Rendering(Enumeration([], map[]), accepted, Enumeration([], map[]));
      ghost var s := State();
      var ingressName := NamespacedName(namespace, name);
      var known := routeRuleCache.ContainsIngress(ingressName);
      if !known {
        UnknownIngress(s, defaultBackend, namespace, name, how);
        return how;
      }
      DropRules(ingressName);
      ghost var s1 := State();
      var rendered, first := UpdateRouteTable(accepted);
      ghost var s2 := State();
      ghost var second := UpdateBfeClusterConf();
      how := Rendering(first, accepted, second);
      Deleted(s, s1, s2, State(), defaultBackend, namespace, name, how, rendered);
      return how;
    }

    method UpdateCache(ingress: Ingress) returns (ok: bool)
      requires Valid()
      modifies this`nextAddress, routeRuleCache
      ensures Valid() && nextAddress == old(nextAddress) + |HostPaths(ingress.rules)|
      ensures AddsPaths(old(routeRuleCache.State()), ingress, HostPaths(ingress.rules), old(nextAddress), routeRuleCache.State(), ok)
    {
      hide *;
      ghost var c := routeRuleCache.State();
      var start := nextAddress;
      var rules := ingress.rules;
      NothingAdded(c, ingress, start);
      nextAddress := start + |HostPaths(rules)|;
      for i := 0 to |rules|
        invariant Valid() && nextAddress == start + |HostPaths(rules)|
        invariant AddsPaths(c, ingress, HostPaths(rules[..i]), start, routeRuleCache.State(), true)
      {
        ghost var before := routeRuleCache.State();
        var address := start + |HostPaths(rules[..i])|;
        var added := AddPaths(ingress, rules[i], address);
        RulesContinue(c, ingress, i, start, before, routeRuleCache.State(), added);
        if !added {
          return false;
        }
      }
      assert rules[..|rules|] == rules;
      return true;
    }

    /** The inner loop of UpdateCache. */
    method AddPaths(ingress: Ingress, rule: IngressRule, address: nat) returns (ok: bool)
      requires Valid()
      modifies routeRuleCache
      ensures Valid()
      ensures AddsPaths(old(routeRuleCache.State()), ingress, PathsOf(rule), address, routeRuleCache.State(), ok)
    {
      hide *;
      ghost var c := routeRuleCache.State();
      PathsStart(c, ingress, rule, address);
      for j := 0 to |rule.paths|
        invariant Valid()
        invariant AddsPaths(c, ingress, FirstPaths(rule, j), address, routeRuleCache.State(), true)
      {
        ghost var before := routeRuleCache.State();
        var added := AddRule(ingress, rule.host, rule.paths[j], address + j);
        PathsContinue(c, ingress, rule, j, address, before, routeRuleCache.State(), added);
        if !added {
          return false;
        }
      }
      return true;
    }

    method AddRule(ingress: Ingress, host: string, httpPath: HttpPath, address: nat) returns (ok: bool)
      requires Valid()
      modifies routeRuleCache
      ensures Valid()
      ensures AddsPath(old(routeRuleCache.State()), ingress, host, httpPath, address, routeRuleCache.State(), ok)
    {
      hide Inv; hide Find; hide SetBucket; hide RouteRules.Put; hide ClusterName;
      if !CheckHost(host) {
        return false;
      }
      var h := host;
      if |h| == 0 {
        h := "*";
      }
      var path := httpPath.path;
      if !CheckPath(path) {
        return false;
      }
      if httpPath.pathType == None || httpPath.pathType == Some(Prefix) || httpPath.pathType == Some(ImplementationSpecific) {
        path := path + "*";
      }
      var ingressName := NamespacedName(ingress.namespace, ingress.name);
      var clusterName := ClusterName(ingressName, httpPath.backend);
      ok := routeRuleCache.Put(Rule(address, ingressName, h, path, ingress.annotations, clusterName, ingress.creationTimestamp));
    }

    method UpdateRouteTable(accepted: bool) returns (ok: bool, ghost e: Enumeration)
      requires Valid()
      modifies this`routeTableFile, this`routeTableFileVersion, this`clock
      ensures Enumerates(e, old(State()).cache.ruleMap) && Active() == old(Active())
      ensures Renders(old(State()), defaultBackend, e, accepted, State(), ok)
    {
      hide Inv; hide GetBasic; hide GetAdvanced; hide Enumerates; hide BasicFiles; hide AdvancedFiles;
      hide OneEntryPerPlace; hide LiveAdvanced; hide RuleOrder.Sorted; hide Distinct;
      var basicRules, advancedRules;
      basicRules, advancedRules, e := routeRuleCache.Get();
      var basicFiles := BasicRuleFiles(basicRules);
      var rendered := AdvancedRuleFiles(advancedRules);
      if rendered.None? {
        return false, e;
      }
      var advancedFiles := rendered.value;
      if |defaultBackend| > 0 && (|basicRules| > 0 || |advancedRules| > 0) {
        advancedFiles := advancedFiles + [AdvancedRouteRule(Always, DefaultClusterName(defaultBackend))];
      } else {
        assert advancedFiles + [] == advancedFiles;
      }
      if !accepted {
        return false, e;
      }
      clock := clock + 1;
      routeTableFile, routeTableFileVersion := ServerData.RouteTable(basicFiles, advancedFiles), clock;
      return true, e;
    }

    /** The first loop of UpdateRouteTable. */
    static method BasicRuleFiles(basicRules: seq<Rule>) returns (files: seq<BasicRouteRule>)
      ensures files == BasicFiles(basicRules)
    {
      files := [];
      for i := 0 to |basicRules|
        invariant files == BasicFiles(basicRules[..i])
      {
        var rule := basicRules[i];
        var hostname := if |rule.host| > 0 && rule.host != "*" then Some(rule.host) else None;
        var path := if |rule.path| > 0 then Some(rule.path) else None;
        files := files + [BasicRouteRule(hostname, path, rule.cluster)];
      }
      assert basicRules[..|basicRules|] == basicRules;
    }

    /** The second loop of UpdateRouteTable; None is the error of a condition that does not build. */
    static method AdvancedRuleFiles(advancedRules: seq<Rule>) returns (r: Option<seq<AdvancedRouteRule>>)
      ensures r == AdvancedFiles(advancedRules)
    {
      hide BuildCondition;
      var files: seq<AdvancedRouteRule> := [];
      for i := 0 to |advancedRules|
        invariant AdvancedFiles(advancedRules[..i]) == Some(files)
      {
        var rule := advancedRules[i];
        assert advancedRules[..i + 1][..i] == advancedRules[..i];
        var condition := BuildCondition(rule.host, rule.path, rule.annotations);
        if condition.None? {
          OneFailsAll(advancedRules, i + 1);
          return None;
        }
        files := files + [AdvancedRouteRule(AllOf(condition.value), rule.cluster)];
      }
      assert advancedRules[..|advancedRules|] == advancedRules;
      return Some(files);
    }

    /** The loops of updateBfeClusterConf. */
    method NewBfeClusterConf(basicRules: seq<Rule>, advancedRules: seq<Rule>) returns (config: set<string>)
      ensures config == ConfClusters(defaultBackend, basicRules, advancedRules)
    {
      hide BasicNames; hide AdvancedNames; hide DefaultClusterName;
      NothingNamed();
      config := {};
      for i := 0 to |basicRules|
        invariant config == BasicNames(basicRules[..i])
      {
        NamesStep(basicRules, i);
        if basicRules[i].cluster == ADVANCED_MODE {
          continue;
        }
        config := config + {basicRules[i].cluster};
      }
      assert basicRules[..|basicRules|] == basicRules;
      for i := 0 to |advancedRules|
        invariant config == BasicNames(basicRules) + AdvancedNames(advancedRules[..i])
      {
        AdvancedStep(advancedRules, i);
        config := config + {advancedRules[i].cluster};
      }
      assert advancedRules[..|advancedRules|] == advancedRules;
      if |defaultBackend| > 0 && (|basicRules| > 0 || |advancedRules| > 0) {
        config := config + {DefaultClusterName(defaultBackend)};
      }
    }

    method UpdateBfeClusterConf() returns (ghost e: Enumeration)
      requires Valid()
      modifies this`bfeClusterConf, this`clusterConfVersion, this`clock
      ensures Enumerates(e, old(State()).cache.ruleMap) && Active() == old(Active())
      ensures Configures(old(State()), defaultBackend, e, State())
    {
      hide Inv; hide GetBasic; hide GetAdvanced; hide Enumerates; hide OneEntryPerPlace; hide LiveAdvanced; hide RuleOrder.Sorted; hide Distinct; hide ConfClusters;
      var basicRules, advancedRules;
      basicRules, advancedRules, e := routeRuleCache.Get();
      var config := NewBfeClusterConf(basicRules, advancedRules);
      clock := clock + 1;
      bfeClusterConf, clusterConfVersion := config, clock;
    }

    method Reload(bfe: Bfe) returns (ok: bool)
      modifies this`hostTableVersion, this`routeTableVersion, this`bfeClusterConfVersion, bfe
      ensures State() == old(State())
      ensures Reloaded(ServerDocs(State(), old(Active())), old(bfe.State()), bfe.State(), ok)
      ensures Active() == if ok then ServerActivated(State()) else old(Active())
    {
      hide *;
      ghost var docs, env := ServerDocs(State(), Active()), bfe.State();
      ServerFiles(State(), Active());
      var reload;
      ok, reload := DumpFiles(bfe);
      if !ok {
        return false;
      }
      ghost var dumped := bfe.State();
      if reload {
        ok := bfe.ReloadBfe({HostRuleData, RouteRuleData, ClusterConfData});
        ReloadEnds(docs, 3, env, dumped, bfe.State(), ok);
        if !ok {
          return false;
        }
        Activate();
      } else {
        NothingToReload(docs, 3, env, dumped);
        CleanIsActive(State(), Active());
      }
      return true;
    }

    /** Dumps the files whose version is not the active one; reload says whether there was one. */
    method DumpFiles(bfe: Bfe) returns (ok: bool, reload: bool)
      modifies bfe
      ensures |ServerDocs(State(), Active())| == 3
      ensures if ok then Dumped(ServerDocs(State(), Active()), 3, old(bfe.State()), bfe.State(), reload)
              else Reloaded(ServerDocs(State(), Active()), old(bfe.State()), bfe.State(), false)
    {
      hide Dumped; hide Apart; hide AllFiles; hide Reloaded; hide Bfe.State;
      ghost var docs, env := ServerDocs(State(), Active()), bfe.State();
      ServerFiles(State(), Active());
      DumpStarts(docs, env);
      ok, reload := bfe.DumpPart(docs, 0, env, false, hostTableConfVersion != hostTableVersion, HostRuleData, HostTable(hostTableConfVersion));
      if ok {
        ok, reload := bfe.DumpPart(docs, 1, env, reload, routeTableFileVersion != routeTableVersion, RouteRuleData,
                                   Content.RouteTable(routeTableFileVersion, routeTableFile));
      }
      if ok {
        ok, reload := bfe.DumpPart(docs, 2, env, reload, clusterConfVersion != bfeClusterConfVersion, ClusterConfData,
                                   ClusterConf(clusterConfVersion, bfeClusterConf));
      }
    }

    method Activate()
      modifies this`hostTableVersion, this`routeTableVersion, this`bfeClusterConfVersion
      ensures State() == old(State()) && Active() == ServerActivated(State())
    {
      hostTableVersion := hostTableConfVersion;
      routeTableVersion := routeTableFileVersion;
      bfeClusterConfVersion := clusterConfVersion;
    }
  }

  lemma CleanIsActive(s: ServerState, a: ServerActive)
    requires |ServerDocs(s, a)| == 3 && forall i :: 0 <= i < 3 ==> !Dirty(ServerDocs(s, a)[i])
    ensures a == ServerActivated(s)
  {
    assert !Dirty(ServerDocs(s, a)[0]) && !Dirty(ServerDocs(s, a)[1]) && !Dirty(ServerDocs(s, a)[2]);
  }

  // ---------------------------------------------------------------- the loops' steps

  function FirstPaths(rule: IngressRule, j: nat): seq<(string, HttpPath)> {
    if j <= |PathsOf(rule)| then PathsOf(rule)[..j] else PathsOf(rule)
  }

  lemma PathsStart(c: Cache, ingress: Ingress, rule: IngressRule, address: nat)
    ensures AddsPaths(c, ingress, FirstPaths(rule, 0), address, c, true)
    ensures FirstPaths(rule, |rule.paths|) == PathsOf(rule)
  {
  }

  lemma PathsContinue(c: Cache, ingress: Ingress, rule: IngressRule, j: nat, address: nat, before: Cache, after: Cache, ok: bool)
    requires j < |rule.paths|
    requires AddsPaths(c, ingress, FirstPaths(rule, j), address, before, true)
    requires AddsPath(before, ingress, rule.host, rule.paths[j], address + j, after, ok)
    ensures AddsPaths(c, ingress, FirstPaths(rule, j + 1), address, after, ok)
    ensures !ok ==> AddsPaths(c, ingress, PathsOf(rule), address, after, false)
  {
    hide AddsPath; hide AddsPaths; hide PathsOf;
    var all := PathsOf(rule);
    PathsOfAt(rule);
    assert all[..j] + [all[j]] == all[..j + 1];
    OneMore(c, ingress, all[..j], all[j], address, before, after, ok);
    if !ok {
      FailsForGood(c, ingress, all, j + 1, address, after);
    }
  }

  lemma RulesContinue(c: Cache, ingress: Ingress, i: nat, start: nat, before: Cache, after: Cache, ok: bool)
    requires i < |ingress.rules|
    requires AddsPaths(c, ingress, HostPaths(ingress.rules[..i]), start, before, true)
    requires AddsPaths(before, ingress, PathsOf(ingress.rules[i]), start + |HostPaths(ingress.rules[..i])|, after, ok)
    ensures AddsPaths(c, ingress, HostPaths(ingress.rules[..i + 1]), start, after, ok)
    ensures !ok ==> AddsPaths(c, ingress, HostPaths(ingress.rules), start, after, false)
  {
    hide AddsPaths; hide HostPaths; hide PathsOf;
    var all, first := HostPaths(ingress.rules), HostPaths(ingress.rules[..i + 1]);
    HostPathsStep(ingress.rules, i);
    AddsMore(c, ingress, HostPaths(ingress.rules[..i]), PathsOf(ingress.rules[i]), start, before, after, ok);
    if !ok {
      HostPathsPrefix(ingress.rules, i + 1);
      assert all[..|first|] == first;
      FailsForGood(c, ingress, all, |first|, start, after);
    }
  }

  lemma NothingToUpdate(s: ServerState, defaultBackend: string, ingress: Ingress, how: Rendering)
    requires ingress.rules == []
    ensures Updates(s, defaultBackend, ingress, how, s, true) && UpdatePossible(s, ingress, how)
  {
  }

  lemma NotCached(s: ServerState, s1: ServerState, after: ServerState, defaultBackend: string, ingress: Ingress, how: Rendering)
    requires ingress.rules != [] && Caches(s, ingress, s1, false)
    requires Drops(s1, NamespacedName(ingress.namespace, ingress.name), after)
    ensures Updates(s, defaultBackend, ingress, how, after, false) && UpdatePossible(s, ingress, how)
  {
  }

  lemma Rendered(s: ServerState, s1: ServerState, s2: ServerState, after: ServerState, defaultBackend: string, ingress: Ingress,
                 how: Rendering, rendered: bool)
    requires ingress.rules != [] && Caches(s, ingress, s1, true)
    requires Renders(s1, defaultBackend, how.first, how.accepted, s2, rendered)
    requires Enumerates(how.first, s1.cache.ruleMap)
    requires rendered ==> Enumerates(how.second, s2.cache.ruleMap) && Configures(s2, defaultBackend, how.second, after)
    requires !rendered ==> how.second == how.first && Drops(s2, NamespacedName(ingress.namespace, ingress.name), after)
    ensures Updates(s, defaultBackend, ingress, how, after, rendered) && UpdatePossible(s, ingress, how)
  {
  }

  lemma UnknownIngress(s: ServerState, defaultBackend: string, namespace: string, name: string, how: Rendering)
    requires NamespacedName(namespace, name) !in s.cache.ingress2Rule
    ensures Deletes(s, defaultBackend, namespace, name, how, s) && DeletePossible(s, namespace, name, how)
  {
  }

  lemma Deleted(s: ServerState, s1: ServerState, s2: ServerState, after: ServerState, defaultBackend: string, namespace: string, name: string,
                how: Rendering, rendered: bool)
    requires NamespacedName(namespace, name) in s.cache.ingress2Rule && Drops(s, NamespacedName(namespace, name), s1)
    requires Renders(s1, defaultBackend, how.first, how.accepted, s2, rendered)
    requires Enumerates(how.first, s1.cache.ruleMap)
    requires Enumerates(how.second, s2.cache.ruleMap) && Configures(s2, defaultBackend, how.second, after)
    ensures Deletes(s, defaultBackend, namespace, name, how, after) && DeletePossible(s, namespace, name, how)
  {
  }

  lemma {:induction false} AddsMore(c: Cache, ingress: Ingress, a: seq<(string, HttpPath)>, b: seq<(string, HttpPath)>, start: nat,
                                   before: Cache, after: Cache, ok: bool)
    requires AddsPaths(c, ingress, a, start, before, true)
    requires AddsPaths(before, ingress, b, start + |a|, after, ok)
    ensures AddsPaths(c, ingress, a + b, start, after, ok)
  {
    hide AddRule;
    if b == [] {
      assert a + b == a;
    } else {
      var (middle, fine) := UpdateCache(before, ingress, b[..|b| - 1], start + |a|);
      AddsMore(c, ingress, a, b[..|b| - 1], start, before, middle, fine);
      assert (a + b)[..|a + b| - 1] == a + b[..|b| - 1];
    }
  }

  lemma PathsOfAt(rule: IngressRule)
    ensures |PathsOf(rule)| == |rule.paths|
    ensures forall j :: 0 <= j < |rule.paths| ==> PathsOf(rule)[j] == (rule.host, rule.paths[j])
  {
  }

  lemma OneMore(c: Cache, ingress: Ingress, soFar: seq<(string, HttpPath)>, next: (string, HttpPath), start: nat,
                before: Cache, after: Cache, ok: bool)
    requires AddsPaths(c, ingress, soFar, start, before, true)
    requires AddsPath(before, ingress, next.0, next.1, start + |soFar|, after, ok)
    ensures AddsPaths(c, ingress, soFar + [next], start, after, ok)
  {
    hide AddRule;
    var all := soFar + [next];
    assert all[..|all| - 1] == soFar;
  }

  lemma NothingAdded(c: Cache, ingress: Ingress, start: nat)
    ensures AddsPaths(c, ingress, HostPaths(ingress.rules[..0]), start, c, true)
  {
  }

  lemma {:induction false} FailsForGood(c: Cache, ingress: Ingress, paths: seq<(string, HttpPath)>, n: nat, start: nat, after: Cache)
    requires n <= |paths| && AddsPaths(c, ingress, paths[..n], start, after, false)
    ensures AddsPaths(c, ingress, paths, start, after, false)
  {
    hide AddRule;
    if n == |paths| {
      assert paths[..n] == paths;
    } else {
      assert paths[..|paths| - 1][..n] == paths[..n];
      FailsForGood(c, ingress, paths[..|paths| - 1], n, start, after);
    }
  }

  lemma {:induction false} HostPathsPrefix(rules: seq<IngressRule>, i: nat)
    requires i <= |rules|
    ensures HostPaths(rules[..i]) <= HostPaths(rules)
  {
    if i == |rules| {
      assert rules[..i] == rules;
    } else {
      var front := rules[..|rules| - 1];
      assert front[..i] == rules[..i];
      HostPathsPrefix(front, i);
    }
  }

  lemma {:induction false} OneFailsAll(rules: seq<Rule>, n: nat)
    requires n <= |rules| && AdvancedFiles(rules[..n]).None?
    ensures AdvancedFiles(rules).None?
  {
    if n == |rules| {
      assert rules[..n] == rules;
    } else {
      assert rules[..|rules| - 1][..n] == rules[..n];
      OneFailsAll(rules[..|rules| - 1], n);
    }
  }

  lemma NothingNamed()
    ensures BasicNames([]) == {} && AdvancedNames([]) == {}
  {
  }

  lemma NamesStep(rules: seq<Rule>, i: nat)
    requires i < |rules|
    ensures BasicNames(rules[..i + 1]) == BasicNames(rules[..i]) + if rules[i].cluster == ADVANCED_MODE then {} else {rules[i].cluster}
  {
  }

  lemma AdvancedStep(rules: seq<Rule>, i: nat)
    requires i < |rules|
    ensures AdvancedNames(rules[..i + 1]) == AdvancedNames(rules[..i]) + {rules[i].cluster}
  {
  }
}
