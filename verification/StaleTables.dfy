/** Over whole runs of ConfigBuilder: exactly when the route table is a rendering of the live rules, what that gives for the
    clusters it names, and what deleting an ingress after a failed update does to it. */
module StaleTables {
  import opened Multimaps
  import opened Kube
  import opened Names
  import opened RouteRules
  import opened RuleLists
  import opened Reloads
  import opened Builder
  import opened BuilderEffects
  import opened BuilderFailures
  import opened FailedUpdates
  import opened Routing
  import opened RouteTables
  import opened ReloadContents
  import BuilderRuns
  import ServerData
  import ServerInvariants
  import Clusters
  import ClusterInvariants
  import Tls

  // ---------------------------------------------------------------- which steps render, and which lose rules

  /** The step replaces the route table. */
  ghost predicate Rerenders(x: State, defaultBackend: string, e: Event) {
    match e
    case IngressUpdated(u, c) =>
      var o := UpdateIngress(x, defaultBackend, u, c).1;
      o != ServerFailed && (u.ingress.rules != [] || (o == TlsFailed && ServerData.IngressName(u.ingress) in x.server.cache.ingress2Rule))
    case IngressDeleted(ns, n, _, _) => NamespacedName(ns, n) in x.server.cache.ingress2Rule
    case _ => false
  }

  /** The step is an update that fails in the server data and costs a live rule. */
  ghost predicate Loses(x: State, defaultBackend: string, e: Event) {
    && e.IngressUpdated? && UpdateIngress(x, defaultBackend, e.update, e.choices).1 == ServerFailed
    && exists r :: Live(x.server.cache, r) && Lost(x.server, e.update.ingress, r)
  }

  /** No step since the last rendering has cost a live rule. */
  ghost predicate LosslessRun(x: State, defaultBackend: string, events: seq<Event>) {
    events == [] ||
    var front, last := events[..|events| - 1], events[|events| - 1];
    var before := RunFrom(x, defaultBackend, front);
    Rerenders(before, defaultBackend, last) || (LosslessRun(x, defaultBackend, front) && !Loses(before, defaultBackend, last))
  }

  lemma UpdateSyncs(x: State, defaultBackend: string, u: Update, c: Choices)
    requires Indexed(x, defaultBackend) && UpdatePossible(x, defaultBackend, u, c) && c.undo.accepted
    requires UpdateIngress(x, defaultBackend, u, c).1 != ServerFailed
    ensures var s' := UpdateIngress(x, defaultBackend, u, c).0.server;
            if Rerenders(x, defaultBackend, IngressUpdated(u, c)) then InSync(s', defaultBackend) else s' == x.server
  {
    hide ServerData.UpdateIngress; hide ServerData.DeleteIngress; hide ServerData.UpdatePossible; hide ServerData.DeletePossible;
    hide InSync; hide ServerInvariants.CacheOk; hide UpdateCluster; hide UpdateTls; hide Clusters.DeleteIngress;
    var s := UpdateServer(x, defaultBackend, u, c).0;
    if u.ingress.rules != [] {
      SuccessInSync(x.server, defaultBackend, u.ingress, c.how);
    } else {
      NoRulesNoChange(x.server, defaultBackend, u.ingress, c.how);
    }
    ServerInvariants.UpdateIngressKeepsCacheOk(x.server, defaultBackend, u.ingress, c.how);
    if UpdateIngress(x, defaultBackend, u, c).1 != Done {
      DeletionInSync(s, defaultBackend, u.ingress.namespace, u.ingress.name, c.undo);
      if u.ingress.rules == [] {
        NoRulesNoClusterError(x, defaultBackend, u, c);
      }
    }
  }

  lemma NoRulesNoChange(s: ServerData.ServerState, defaultBackend: string, ingress: Ingress, how: ServerData.Rendering)
    requires ingress.rules == []
    ensures ServerData.UpdateIngress(s, defaultBackend, ingress, how) == (s, true)
  {
  }

  lemma NoRulesNoClusterError(x: State, defaultBackend: string, u: Update, c: Choices)
    requires u.ingress.rules == []
    ensures UpdateIngress(x, defaultBackend, u, c).1 != ClusterFailed
  {
  }

  /** One step: a rendering brings the table in sync, a loss leaves it behind, and anything else changes nothing. */
  lemma StepSyncs(x: State, defaultBackend: string, e: Event)
    requires Indexed(x, defaultBackend) && Possible(x, defaultBackend, e) && Accepts(e)
    ensures var s' := Step(x, defaultBackend, e).server;
            if Rerenders(x, defaultBackend, e) then InSync(s', defaultBackend)
            else if Loses(x, defaultBackend, e) then InSync(x.server, defaultBackend) || Behind(x.server, defaultBackend) ==> Behind(s', defaultBackend)
            else s'.cache.ruleMap == x.server.cache.ruleMap && s'.routeTable == x.server.routeTable
  {
    hide InSync; hide Behind; hide Lost; hide Live; hide ServerInvariants.CacheOk; hide ServerData.UpdateIngress; hide ServerData.DeleteIngress;
    hide ServerData.UpdatePossible; hide ServerData.DeletePossible; hide UpdateCluster; hide UpdateTls; hide Clusters.DeleteIngress;
    hide Clusters.UpdateService; hide Clusters.DeleteService; hide Clusters.ServiceOrder; hide Tls.DeleteIngress; hide Tls.DeleteSecret; hide Tls.UpdateSecret;
    hide ReloadPossible; hide KubeName; hide NamespacedName;
    match e
    case IngressUpdated(u, c) =>
      if UpdateIngress(x, defaultBackend, u, c).1 == ServerFailed {
        if u.ingress.rules == [] {
          NoRulesNoChange(x.server, defaultBackend, u.ingress, c.how);
        }
        FailureEffect(x.server, defaultBackend, u.ingress, c.how);
      } else {
        UpdateSyncs(x, defaultBackend, u, c);
      }
    case IngressDeleted(ns, n, how, _) => DeletionInSync(x.server, defaultBackend, ns, n, how);
    case ServiceUpdated(_, _, _) =>
    case ServiceDeleted(_, _) =>
    case SecretUpdated(_) =>
    case SecretDeleted(_, _, _) =>
    case Reloads(_) =>
  }

  lemma SameIsBehind(s: ServerData.ServerState, s': ServerData.ServerState, defaultBackend: string)
    requires s'.cache.ruleMap == s.cache.ruleMap && s'.routeTable == s.routeTable
    ensures Behind(s, defaultBackend) <==> Behind(s', defaultBackend)
  {
    hide AdvancedSet;
    forall r
      ensures r in AdvancedSet(s'.cache) <==> r in AdvancedSet(s.cache)
    {
      InAdvancedSet(s.cache, r);
      InAdvancedSet(s'.cache, r);
    }
    assert AdvancedSet(s'.cache) == AdvancedSet(s.cache);
  }

  lemma {:induction false} InSyncOrBehind(version: Version, env: Env, defaultBackend: string, events: seq<Event>)
    requires PossibleRun(InitialState(version, env), defaultBackend, events) && forall e :: e in events ==> Accepts(e)
    ensures var s := RunFrom(InitialState(version, env), defaultBackend, events).server;
            if LosslessRun(InitialState(version, env), defaultBackend, events) then InSync(s, defaultBackend) else Behind(s, defaultBackend)
  {
    hide InSync; hide Behind; hide Indexed; hide Step; hide Possible; hide Rerenders; hide Loses; hide Accepts;
    var start := InitialState(version, env);
    if events == [] {
      InitiallyInSync(version, defaultBackend);
      return;
    }
    var front, last := events[..|events| - 1], events[|events| - 1];
    var x := RunFrom(start, defaultBackend, front);
    InSyncOrBehind(version, env, defaultBackend, front);
    BuilderRuns.EveryRunKeepsIndexes(version, env, defaultBackend, front);
    StepSyncs(x, defaultBackend, last);
    var s' := Step(x, defaultBackend, last).server;
    if !Rerenders(x, defaultBackend, last) && !Loses(x, defaultBackend, last) {
      SameCacheInSync(x.server, s', defaultBackend);
      SameIsBehind(x.server, s', defaultBackend);
    }
  }

  /** Over all runs where the library accepts when rules are withdrawn: the route table is a rendering of the live rules exactly
      when no failed update has cost a live rule since the last rendering. */
  lemma EveryRunInSyncExactly(version: Version, env: Env, defaultBackend: string, events: seq<Event>)
    requires PossibleRun(InitialState(version, env), defaultBackend, events) && forall e :: e in events ==> Accepts(e)
    ensures InSync(RunFrom(InitialState(version, env), defaultBackend, events).server, defaultBackend) <==>
            LosslessRun(InitialState(version, env), defaultBackend, events)
  {
    hide InSync; hide Behind; hide Indexed; hide Step; hide Possible; hide LosslessRun; hide RunFrom; hide PossibleRun; hide Accepts;
    InSyncOrBehind(version, env, defaultBackend, events);
    BuilderRuns.EveryRunKeepsIndexes(version, env, defaultBackend, events);
    var x := RunFrom(InitialState(version, env), defaultBackend, events);
    if Behind(x.server, defaultBackend) {
      IndexedCache(x, defaultBackend);
      BehindIsOutOfSync(x.server, defaultBackend);
    }
  }

  lemma IndexedCache(x: State, defaultBackend: string)
    requires Indexed(x, defaultBackend)
    ensures RouteRules.Inv(x.server.cache) && ServerInvariants.CacheOk(x.server.cache)
  {
  }

  // ---------------------------------------------------------------- the clusters a table in sync names

  lemma ModeHasNoSlash()
    ensures '/' !in ADVANCED_MODE
  {
  }

  lemma {:induction false} BeforeIsPrefix(s: string, c: char)
    ensures Before(s, c) <= s
  {
    if s != "" && s[0] != c {
      BeforeIsPrefix(s[1..], c);
    }
  }

  lemma LiveHasSlash(x: State, defaultBackend: string, r: Rule)
    requires Indexed(x, defaultBackend) && Live(x.server.cache, r) && OwnerOf(r.cluster) == r.ingress
    ensures r.cluster != ADVANCED_MODE
  {
    hide Before; hide Live; hide RouteRules.Inv; hide ServerInvariants.AllBuild; hide ClusterInvariants.Inv; hide Tls.Inv;
    BeforeIsPrefix(r.cluster, '_');
    ModeHasNoSlash();
    var i :| 0 <= i < |r.ingress| && r.ingress[i] == '/';
    assert r.cluster[i] == '/';
  }

  lemma ListedIsLive(c: Cache, e: Enumeration, r: Rule)
    requires RouteRules.Inv(c) && Enumerates(e, c.ruleMap) && r.cluster != ADVANCED_MODE
    ensures r in GetBasic(c.ruleMap, e) || r in GetAdvanced(c.ruleMap, e) <==> Live(c, r)
  {
    hide GetBasic; hide GetAdvanced; hide Enumerates; hide RouteRules.Inv;
    BasicMembers(c, e, r);
    AdvancedExactly(c, e, r);
    if Live(c, r) {
      OnExactlyOneList(c, e, r);
    }
  }

  /** The default cluster aside, a rendering of two lists names the clusters on them, and not ADVANCED_MODE. */
  lemma ListsName(defaultBackend: string, basic: seq<Rule>, advanced: seq<Rule>, c: string)
    requires ServerData.RenderLists(defaultBackend, basic, advanced).Some? && c != DefaultClusterName(defaultBackend) && c != ADVANCED_MODE
    ensures c in ServerInvariants.NamedClusters(ServerData.RenderLists(defaultBackend, basic, advanced).value) <==>
            exists r :: (r in basic || r in advanced) && r.cluster == c
  {
    hide ServerInvariants.NamedClusters; hide ServerData.RenderLists; hide DefaultClusterName;
    ServerInvariants.RenderedIsConfigured(defaultBackend, basic, advanced);
  }

  /** Apart from the default cluster, a table in sync names exactly the clusters of the live rules. */
  lemma NamedExactly(x: State, defaultBackend: string, c: string)
    requires Indexed(x, defaultBackend) && Routable(x) && InSync(x.server, defaultBackend) && c != DefaultClusterName(defaultBackend)
    ensures c in ServerInvariants.NamedClusters(x.server.routeTable) <==> exists r :: Live(x.server.cache, r) && r.cluster == c
  {
    var cache := x.server.cache;
    var e :| Enumerates(e, cache.ruleMap) && ServerData.Render(cache, defaultBackend, e) == Some(x.server.routeTable);
    NamedBy(x, defaultBackend, e, c);
  }

  lemma NamedBy(x: State, defaultBackend: string, e: Enumeration, c: string)
    requires Indexed(x, defaultBackend) && Routable(x) && Enumerates(e, x.server.cache.ruleMap) && c != DefaultClusterName(defaultBackend)
    requires ServerData.Render(x.server.cache, defaultBackend, e).Some?
    ensures c in ServerInvariants.NamedClusters(ServerData.Render(x.server.cache, defaultBackend, e).value) <==>
            exists r :: Live(x.server.cache, r) && r.cluster == c
  {
    hide GetBasic; hide GetAdvanced; hide ServerInvariants.NamedClusters; hide ServerData.RenderLists; hide RouteRules.Inv; hide Enumerates;
    hide Indexed; hide Live; hide DefaultClusterName; hide Routable; hide OwnerOf;
    IndexedCache(x, defaultBackend);
    var cache := x.server.cache;
    var basic, advanced := GetBasic(cache.ruleMap, e), GetAdvanced(cache.ruleMap, e);
    forall r: Rule
      ensures r.cluster != ADVANCED_MODE ==> (r in basic || r in advanced <==> Live(cache, r))
      ensures r.cluster == ADVANCED_MODE ==> !Live(cache, r)
    {
      if r.cluster != ADVANCED_MODE {
        ListedIsLive(cache, e, r);
      } else if Live(cache, r) {
        RoutableIsInTable(x, defaultBackend, r);
        LiveHasSlash(x, defaultBackend, r);
      }
    }
    if c == ADVANCED_MODE {
      ModeIsNotNamed(x, defaultBackend, e);
    } else {
      ListsName(defaultBackend, basic, advanced, c);
    }
  }

  lemma ModeIsNotNamed(x: State, defaultBackend: string, e: Enumeration)
    requires Indexed(x, defaultBackend) && Routable(x) && Enumerates(e, x.server.cache.ruleMap) && ADVANCED_MODE != DefaultClusterName(defaultBackend)
    requires ServerData.Render(x.server.cache, defaultBackend, e).Some?
    ensures ADVANCED_MODE !in ServerInvariants.NamedClusters(ServerData.Render(x.server.cache, defaultBackend, e).value)
  {
    hide GetBasic; hide GetAdvanced; hide ServerInvariants.NamedClusters; hide ServerData.RenderLists; hide RouteRules.Inv; hide Enumerates;
    hide Indexed; hide Live; hide DefaultClusterName; hide Routable; hide OwnerOf; hide LiveAdvanced;
    IndexedCache(x, defaultBackend);
    var cache := x.server.cache;
    var basic, advanced := GetBasic(cache.ruleMap, e), GetAdvanced(cache.ruleMap, e);
    ServerInvariants.RenderedIsConfigured(defaultBackend, basic, advanced);
    forall r | r in advanced
      ensures r.cluster != ADVANCED_MODE
    {
      AdvancedExactly(cache, e, r);
      ServerInvariants.AdvancedIsLive(cache, r);
      RoutableIsInTable(x, defaultBackend, r);
      LiveHasSlash(x, defaultBackend, r);
    }
  }

  /** Whenever the route table is in sync, every cluster it names but the default one is in the cluster table. */
  lemma NamedIsInTable(x: State, defaultBackend: string, c: string)
    requires Indexed(x, defaultBackend) && Routable(x) && InSync(x.server, defaultBackend)
    requires c in ServerInvariants.NamedClusters(x.server.routeTable) && c != DefaultClusterName(defaultBackend)
    ensures c in x.cluster.table
  {
    hide *;
    NamedExactly(x, defaultBackend, c);
    var r :| Live(x.server.cache, r) && r.cluster == c;
    RoutableIsInTable(x, defaultBackend, r);
  }

  /** The same over runs: as long as no failed update has cost a live rule since the last rendering, BFE is never given a route to
      a cluster the cluster table does not have. */
  lemma EveryRunRoutesToTable(version: Version, env: Env, defaultBackend: string, events: seq<Event>, c: string)
    requires PossibleRun(InitialState(version, env), defaultBackend, events) && forall e :: e in events ==> Accepts(e)
    requires LosslessRun(InitialState(version, env), defaultBackend, events) && c != DefaultClusterName(defaultBackend)
    ensures var x := RunFrom(InitialState(version, env), defaultBackend, events);
            c in ServerInvariants.NamedClusters(x.server.routeTable) ==> c in x.cluster.table
  {
    hide *;
    var x := RunFrom(InitialState(version, env), defaultBackend, events);
    EveryRunInSyncExactly(version, env, defaultBackend, events);
    BuilderRuns.EveryRunKeepsIndexes(version, env, defaultBackend, events);
    EveryRunIsRoutable(version, env, defaultBackend, events);
    if c in ServerInvariants.NamedClusters(x.server.routeTable) {
      NamedIsInTable(x, defaultBackend, c);
    }
  }

  /** On those runs the table also sends every request where the live rules say, and its basic part is that of the live rules. */
  lemma EveryRunServesRightly(version: Version, env: Env, defaultBackend: string, events: seq<Event>, q: Request)
    requires PossibleRun(InitialState(version, env), defaultBackend, events) && forall e :: e in events ==> Accepts(e)
    requires LosslessRun(InitialState(version, env), defaultBackend, events)
    ensures var s := RunFrom(InitialState(version, env), defaultBackend, events).server;
            ServesRightly(s.cache, s.routeTable, defaultBackend, q) && BasicTable(s.cache, s.routeTable)
  {
    hide *;
    var x := RunFrom(InitialState(version, env), defaultBackend, events);
    EveryRunInSyncExactly(version, env, defaultBackend, events);
    BuilderRuns.EveryRunKeepsIndexes(version, env, defaultBackend, events);
    IndexedCache(x, defaultBackend);
    InSyncServes(x.server, defaultBackend, q);
    InSyncBasic(x.server, defaultBackend);
  }

  /** And after a successful reload it is this table that BFE has loaded. */
  lemma EveryReloadServesRightly(version: Version, env: Env, defaultBackend: string, events: seq<Event>, r: Reloading, q: Request)
    requires version > 0
    requires var start := InitialState(version, env);
             && PossibleRun(start, defaultBackend, events) && NoticedRun(start, defaultBackend, events) && LosslessRun(start, defaultBackend, events)
             && (forall e :: e in events ==> Accepts(e))
    requires ReloadPossible(RunFrom(InitialState(version, env), defaultBackend, events), r) && Succeeds(r)
    ensures var x := Reload(RunFrom(InitialState(version, env), defaultBackend, events), r);
            && RouteRuleData in x.env.loaded && x.env.loaded[RouteRuleData].RouteTable?
            && ServesRightly(x.server.cache, x.env.loaded[RouteRuleData].table, defaultBackend, q)
            && BasicTable(x.server.cache, x.env.loaded[RouteRuleData].table)
  {
    hide RunFrom; hide PossibleRun; hide NoticedRun; hide LosslessRun; hide Accepts; hide ReloadPossible; hide Succeeds; hide Reload;
    hide ServesRightly; hide BasicTable; hide HostTableInPlace; hide ClusterConfInPlace; hide GslbInPlace; hide ClusterTableInPlace; hide CertsInPlace; hide TlsRuleInPlace;
    EveryRunServesRightly(version, env, defaultBackend, events, q);
    BuilderRuns.SuccessfulReloadWritesAll(version, env, defaultBackend, events, r);
    ReloadKeepsServer(RunFrom(InitialState(version, env), defaultBackend, events), r);
  }

  lemma ReloadKeepsServer(x: State, r: Reloading)
    ensures Reload(x, r).server == x.server
  {
  }

  // ---------------------------------------------------------------- a deleted ingress that stays routed

  /** When an update of an ingress fails in the server data and the ingress is then deleted, as the controllers do after every
      error, the route table stays as it was: DeleteIngress finds no rule and does not render again. Of the clusters it names,
      exactly those of the ingress's own former rules are no longer in the cluster table, the default cluster aside. */
  lemma DeletedAfterFailureStaysRouted(x: State, defaultBackend: string, u: Update, c: Choices, how: ServerData.Rendering, env': Env, cluster: string)
    requires Indexed(x, defaultBackend) && Routable(x) && InSync(x.server, defaultBackend)
    requires u.ingress.rules != [] && UpdateIngress(x, defaultBackend, u, c).1 == ServerFailed
    requires cluster in ServerInvariants.NamedClusters(x.server.routeTable) && cluster != DefaultClusterName(defaultBackend)
    ensures var x1 := UpdateIngress(x, defaultBackend, u, c).0;
            var x2 := DeleteIngress(x1, defaultBackend, u.ingress.namespace, u.ingress.name, how, env');
            && x2.server.routeTable == x.server.routeTable && x2.server.routeVersion == x.server.routeVersion
            && (cluster !in x2.cluster.table <==>
                exists r :: Live(x.server.cache, r) && r.cluster == cluster && r.ingress == ServerData.IngressName(u.ingress))
            && (cluster !in x2.cluster.table <==> OwnerOf(cluster) == ServerData.IngressName(u.ingress))
  {
    var ns, n := u.ingress.namespace, u.ingress.name;
    FailureKeepsTable(x.server, defaultBackend, u.ingress, c.how);
    FailureKeepsVersion(x.server, defaultBackend, u.ingress, c.how);
    ClusterInvariants.DeleteIngressIsExact(x.cluster, defaultBackend, ns, n, cluster);
    NamedExactly(x, defaultBackend, cluster);
    var r :| Live(x.server.cache, r) && r.cluster == cluster;
    RoutableIsInTable(x, defaultBackend, r);
    hide ServerData.UpdateIngress; hide Clusters.DeleteIngress; hide UpdateCluster; hide UpdateTls; hide Indexed; hide InSync;
    hide Live; hide NamespacedName; hide OwnerOf; hide DefaultClusterName; hide ServerInvariants.NamedClusters; hide RouteRules.Delete; hide Has;
    forall r' | Live(x.server.cache, r') && r'.cluster == cluster
      ensures r'.ingress == OwnerOf(cluster)
    {
      RoutableIsInTable(x, defaultBackend, r');
    }
  }

  lemma FailureKeepsVersion(s: ServerData.ServerState, defaultBackend: string, ingress: Ingress, how: ServerData.Rendering)
    requires !ServerData.UpdateIngress(s, defaultBackend, ingress, how).1
    ensures ServerData.UpdateIngress(s, defaultBackend, ingress, how).0.routeVersion == s.routeVersion
  {
  }
}
