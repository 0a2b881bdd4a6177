/** The rule cache of ConfigBuilder as a run of puts and deletes: over whole runs, exactly when a key is held by the rule that the
    remaining ingresses would give it from scratch, and which rules an update leaves its ingress. */
module BuilderClaims {
  import opened Kube
  import opened Names
  import opened RouteRules
  import opened Reloads
  import opened Builder
  import opened LostClaims
  import opened Admission
  import BuilderRuns
  import ServerData
  import Clusters

  // ---------------------------------------------------------------- the history of the rule cache

  /** The puts of updateCache from cache c, the one that is refused included. */
  function PutsOf(c: Cache, ingress: Ingress, paths: Paths, address: nat): seq<Op> {
    if paths == [] then [] else
      var front, last := paths[..|paths| - 1], paths[|paths| - 1];
      PutsOf(c, ingress, front, address) +
      if ServerData.UpdateCache(c, ingress, front, address).1 && ServerData.CheckHost(last.0) && ServerData.CheckPath(last.1.path)
      then [PutOp(ServerData.RuleOf(ingress, last.0, last.1, address + |paths| - 1))] else []
  }

  /** What updateCache does after the ingress's former rules are deleted. */
  function CachingOps(s: ServerData.ServerState, ingress: Ingress): seq<Op> {
    [DeleteOp(ServerData.IngressName(ingress))] + PutsOf(Cleared(s, ingress), ingress, HostPaths(ingress.rules), s.nextAddress)
  }

  /** The puts and deletes of one step. */
  ghost function OpsOf(x: State, defaultBackend: string, e: Event): seq<Op> {
    match e
    case IngressUpdated(u, c) =>
      (if u.ingress.rules == [] then [] else CachingOps(x.server, u.ingress)) +
      if UpdateIngress(x, defaultBackend, u, c).1 == Done then [] else [DeleteOp(ServerData.IngressName(u.ingress))]
    case IngressDeleted(ns, n, _, _) => [DeleteOp(NamespacedName(ns, n))]
    case _ => []
  }

  ghost function History(x: State, defaultBackend: string, events: seq<Event>): seq<Op> {
    if events == [] then [] else
      var front := events[..|events| - 1];
      History(x, defaultBackend, front) + OpsOf(RunFrom(x, defaultBackend, front), defaultBackend, events[|events| - 1])
  }

  lemma RunMore(ops: seq<Op>, op: Op)
    ensures Run(ops + [op]) == if op.PutOp? then RouteRules.Put(Run(ops), op.rule).0 else RouteRules.Delete(Run(ops), op.ingress)
  {
    hide RouteRules.Put; hide RouteRules.Delete;
    assert (ops + [op])[..|ops|] == ops;
  }

  lemma {:induction false} PutsRun(ops: seq<Op>, ingress: Ingress, paths: Paths, address: nat)
    ensures Run(ops + PutsOf(Run(ops), ingress, paths, address)) == ServerData.UpdateCache(Run(ops), ingress, paths, address).0
  {
    hide Run; hide RouteRules.Put; hide ServerData.CheckHost; hide ServerData.CheckPath; hide ServerData.RuleOf;
    if paths == [] {
      assert ops + [] == ops;
    } else {
      var front, last := paths[..|paths| - 1], paths[|paths| - 1];
      var before := ops + PutsOf(Run(ops), ingress, front, address);
      PutsRun(ops, ingress, front, address);
      assert PutsOf(Run(ops), ingress, front, address) + [] == PutsOf(Run(ops), ingress, front, address);
      var op := PutOp(ServerData.RuleOf(ingress, last.0, last.1, address + |paths| - 1));
      RunMore(before, op);
      assert ops + (PutsOf(Run(ops), ingress, front, address) + [op]) == before + [op];
    }
  }

  lemma CachingRun(ops: seq<Op>, s: ServerData.ServerState, ingress: Ingress)
    requires RouteRules.Inv(s.cache) && s.cache == Run(ops)
    ensures Run(ops + CachingOps(s, ingress)) == ServerData.AfterUpdateCache(s, ingress).0.cache
  {
    hide Run; hide PutsOf; hide ServerData.UpdateCache; hide HostPaths; hide ServerData.IngressName; hide ServerData.AfterUpdateCache; hide RouteRules.Delete;
    hide RouteRules.Inv;
    var cleared := ops + [DeleteOp(ServerData.IngressName(ingress))];
    RunMore(ops, DeleteOp(ServerData.IngressName(ingress)));
    PutsRun(cleared, ingress, HostPaths(ingress.rules), s.nextAddress);
    AfterCaching(s, ingress);
    assert ops + CachingOps(s, ingress) == cleared + PutsOf(Cleared(s, ingress), ingress, HostPaths(ingress.rules), s.nextAddress);
  }

  /** DeleteIngress is a delete, its early return included. */
  lemma DeletingRun(ops: seq<Op>, s: ServerData.ServerState, defaultBackend: string, namespace: string, name: string, how: ServerData.Rendering)
    requires RouteRules.Inv(s.cache) && s.cache == Run(ops)
    ensures ServerData.DeleteIngress(s, defaultBackend, namespace, name, how).cache == Run(ops + [DeleteOp(NamespacedName(namespace, name))])
    ensures ServerData.DeleteIngress(s, defaultBackend, namespace, name, how).nextAddress == s.nextAddress
  {
    hide Run; hide RouteRules.Inv; hide RouteRules.Delete; hide NamespacedName; hide ServerData.Render; hide ServerData.Configured;
    RunMore(ops, DeleteOp(NamespacedName(namespace, name)));
    if NamespacedName(namespace, name) !in s.cache.ingress2Rule {
      DeleteUnindexed(s.cache, NamespacedName(namespace, name));
    }
  }

  /** ServerDataConfig.UpdateIngress as puts and deletes. */
  lemma UpdatingRun(ops: seq<Op>, s: ServerData.ServerState, defaultBackend: string, ingress: Ingress, how: ServerData.Rendering)
    requires RouteRules.Inv(s.cache) && s.cache == Run(ops)
    ensures var (s', ok) := ServerData.UpdateIngress(s, defaultBackend, ingress, how);
            var after := ops + if ingress.rules == [] then [] else CachingOps(s, ingress);
            && s'.cache == Run(if ok then after else after + [DeleteOp(ServerData.IngressName(ingress))])
            && s'.nextAddress == s.nextAddress + if ingress.rules == [] then 0 else |HostPaths(ingress.rules)|
  {
    hide Run; hide RouteRules.Inv; hide RouteRules.Delete; hide CachingOps; hide ServerData.IngressName; hide ServerData.Render; hide ServerData.Configured;
    hide ServerData.UpdateCache; hide HostPaths;
    if ingress.rules == [] {
      assert ops + [] == ops;
    } else {
      CachingRun(ops, s, ingress);
      RunMore(ops + CachingOps(s, ingress), DeleteOp(ServerData.IngressName(ingress)));
    }
  }

  lemma CacheOfIndexed(x: State, defaultBackend: string)
    requires Indexed(x, defaultBackend)
    ensures RouteRules.Inv(x.server.cache)
  {
  }

  lemma InvOfRun(ops: seq<Op>)
    ensures RouteRules.Inv(Run(ops))
  {
    RunRefines(ops);
  }

  lemma OtherStep(x: State, defaultBackend: string, e: Event)
    requires !e.IngressUpdated? && !e.IngressDeleted?
    ensures Step(x, defaultBackend, e).server == x.server && OpsOf(x, defaultBackend, e) == []
  {
    hide UpdateIngress; hide DeleteIngress; hide Clusters.UpdateService; hide Clusters.DeleteService; hide CachingOps; hide NamespacedName;
  }

  // ---------------------------------------------------------------- new addresses

  /** All rules put have addresses below a, and no two are the same. */
  ghost predicate Allocated(ops: seq<Op>, a: nat) {
    DistinctPuts(ops) && forall i :: 0 <= i < |ops| && ops[i].PutOp? ==> ops[i].rule.address < a
  }

  lemma AllocatedMore(ops: seq<Op>, a: nat, op: Op)
    requires Allocated(ops, a) && (op.PutOp? ==> op.rule.address >= a)
    ensures Allocated(ops + [op], if op.PutOp? then op.rule.address + 1 else a)
  {
  }

  lemma AllocatedBelow(ops: seq<Op>, a: nat, b: nat)
    requires Allocated(ops, a) && a <= b
    ensures Allocated(ops, b)
  {
  }

  lemma {:induction false} PutsAllocated(ops: seq<Op>, c: Cache, ingress: Ingress, paths: Paths, address: nat)
    requires Allocated(ops, address)
    ensures Allocated(ops + PutsOf(c, ingress, paths, address), address + |paths|)
  {
    hide Allocated; hide ServerData.UpdateCache; hide ServerData.CheckHost; hide ServerData.CheckPath;
    if paths == [] {
      assert ops + [] == ops;
    } else {
      var front, last := paths[..|paths| - 1], paths[|paths| - 1];
      var before := ops + PutsOf(c, ingress, front, address);
      PutsAllocated(ops, c, ingress, front, address);
      AllocatedBelow(before, address + |front|, address + |paths|);
      assert PutsOf(c, ingress, front, address) + [] == PutsOf(c, ingress, front, address);
      var op := PutOp(ServerData.RuleOf(ingress, last.0, last.1, address + |paths| - 1));
      AllocatedMore(before, address + |front|, op);
      assert ops + (PutsOf(c, ingress, front, address) + [op]) == before + [op];
    }
  }

  lemma CachingAllocates(ops: seq<Op>, s: ServerData.ServerState, ingress: Ingress)
    requires Allocated(ops, s.nextAddress)
    ensures Allocated(ops + if ingress.rules == [] then [] else CachingOps(s, ingress),
                      s.nextAddress + if ingress.rules == [] then 0 else |HostPaths(ingress.rules)|)
  {
    hide Allocated; hide PutsOf; hide HostPaths; hide Cleared; hide ServerData.IngressName;
    var paths, drop := HostPaths(ingress.rules), DeleteOp(ServerData.IngressName(ingress));
    assert ops + [] == ops;
    AllocatedMore(ops, s.nextAddress, drop);
    PutsAllocated(ops + [drop], Cleared(s, ingress), ingress, paths, s.nextAddress);
    assert ops + CachingOps(s, ingress) == ops + [drop] + PutsOf(Cleared(s, ingress), ingress, paths, s.nextAddress);
  }

  lemma UpdateHistory(ops: seq<Op>, x: State, defaultBackend: string, u: Update, c: Choices)
    requires RouteRules.Inv(x.server.cache) && x.server.cache == Run(ops) && Allocated(ops, x.server.nextAddress)
    ensures var s, all := UpdateIngress(x, defaultBackend, u, c).0.server, ops + OpsOf(x, defaultBackend, IngressUpdated(u, c));
            s.cache == Run(all) && Allocated(all, s.nextAddress)
  {
    hide Run; hide RouteRules.Inv; hide CachingOps; hide ServerData.UpdateIngress; hide ServerData.DeleteIngress; hide UpdateCluster; hide UpdateTls;
    hide Clusters.DeleteIngress; hide NamespacedName; hide Allocated;
    var (s, ok) := UpdateServer(x, defaultBackend, u, c);
    var name := ServerData.IngressName(u.ingress);
    var after := ops + if u.ingress.rules == [] then [] else CachingOps(x.server, u.ingress);
    UpdatingRun(ops, x.server, defaultBackend, u.ingress, c.how);
    CachingAllocates(ops, x.server, u.ingress);
    AllocatedMore(after, s.nextAddress, DeleteOp(name));
    assert ops + [] == ops && after + [] == after;
    if ok && UpdateIngress(x, defaultBackend, u, c).1 != Done {
      InvOfRun(after);
      DeletingRun(after, s, defaultBackend, u.ingress.namespace, u.ingress.name, c.undo);
    }
    assert ops + OpsOf(x, defaultBackend, IngressUpdated(u, c)) ==
           after + if UpdateIngress(x, defaultBackend, u, c).1 == Done then [] else [DeleteOp(name)];
  }

  lemma StepHistory(ops: seq<Op>, x: State, defaultBackend: string, e: Event)
    requires Indexed(x, defaultBackend) && x.server.cache == Run(ops) && Allocated(ops, x.server.nextAddress)
    ensures var s, all := Step(x, defaultBackend, e).server, ops + OpsOf(x, defaultBackend, e);
            s.cache == Run(all) && Allocated(all, s.nextAddress)
  {
    hide Run; hide RouteRules.Inv; hide CachingOps; hide ServerData.DeleteIngress; hide UpdateIngress; hide Reload; hide Indexed; hide Allocated; hide NamespacedName;
    CacheOfIndexed(x, defaultBackend);
    match e
    case IngressUpdated(u, c) => UpdateHistory(ops, x, defaultBackend, u, c);
    case IngressDeleted(ns, n, how, _) =>
      AllocatedMore(ops, x.server.nextAddress, DeleteOp(NamespacedName(ns, n)));
      DeletingRun(ops, x.server, defaultBackend, ns, n, how);
    case _ =>
      OtherStep(x, defaultBackend, e);
      assert ops + [] == ops;
  }

  /** Over all runs the rule cache is what its history of puts and deletes gives, and every rule put is a new one. */
  lemma {:induction false} EveryRunHasHistory(version: ServerData.Version, env: Env, defaultBackend: string, events: seq<Event>)
    requires PossibleRun(InitialState(version, env), defaultBackend, events)
    ensures var start := InitialState(version, env); var s := RunFrom(start, defaultBackend, events).server;
            s.cache == Run(History(start, defaultBackend, events)) && Allocated(History(start, defaultBackend, events), s.nextAddress)
  {
    hide Step; hide OpsOf; hide Possible; hide Indexed;
    var start := InitialState(version, env);
    if events != [] {
      var front, last := events[..|events| - 1], events[|events| - 1];
      var x := RunFrom(start, defaultBackend, front);
      EveryRunHasHistory(version, env, defaultBackend, front);
      BuilderRuns.EveryRunKeepsIndexes(version, env, defaultBackend, front);
      StepHistory(History(start, defaultBackend, front), x, defaultBackend, last);
    }
  }

  // ---------------------------------------------------------------- first created wins over whole runs

  /** After any run of ConfigBuilder, a key is held by the rule that the remaining rules would give it from scratch exactly when
      every remaining claim that a deleted rule had kept out has been outbid since. */
  lemma EveryRunLiveExactly(version: ServerData.Version, env: Env, defaultBackend: string, events: seq<Event>, k: Key)
    requires PossibleRun(InitialState(version, env), defaultBackend, events)
    ensures var start := InitialState(version, env); var ops := History(start, defaultBackend, events);
            LiveAt(RunFrom(start, defaultBackend, events).server.cache, k) == LiveAt(RouteRules.PutAll(EMPTY_CACHE, Remaining(ops)), k) <==>
            forall o :: o in Orphans(ops, k) ==> Outbid(ops, k, o)
  {
    hide *;
    var ops := History(InitialState(version, env), defaultBackend, events);
    EveryRunHasHistory(version, env, defaultBackend, events);
    AllocatedIsDistinct(ops, RunFrom(InitialState(version, env), defaultBackend, events).server.nextAddress);
    LiveFromScratchExactly(ops, k);
  }

  lemma AllocatedIsDistinct(ops: seq<Op>, a: nat)
    requires Allocated(ops, a)
    ensures DistinctPuts(ops)
  {
  }

  // ---------------------------------------------------------------- the rules an update leaves its ingress

  lemma LiveIsAllocated(ops: seq<Op>, a: nat, r: Rule)
    requires Allocated(ops, a) && Live(Run(ops), r)
    ensures r.address < a
  {
    hide Run; hide Live; hide LiveAt; hide Winner; hide Current; hide Orphans; hide Remaining; hide KeyOf; hide RouteRules.Inv; hide Claims;
    InvOfRun(ops);
    LiveRuleAtItsKey(Run(ops), r);
    LiveIsCurrent(ops, KeyOf(r));
    StandingSplits(ops, KeyOf(r));
    assert r in Standing(ops, KeyOf(r));
    ClaimsMembers(EMPTY_CACHE, Remaining(ops), KeyOf(r), r);
    NothingLive(KeyOf(r));
    RemainingWasPut(ops, r);
  }

  /** After any run, a successful update leaves its ingress the rules it had exactly when it brings no rules at all, or when there
      were none and none gets in. An ingress whose rules were removed keeps its former rules, and its clusters. */
  lemma FormerRulesStay(version: ServerData.Version, env: Env, defaultBackend: string, events: seq<Event>, u: Update, c: Choices)
    requires PossibleRun(InitialState(version, env), defaultBackend, events)
    requires UpdateIngress(RunFrom(InitialState(version, env), defaultBackend, events), defaultBackend, u, c).1 == Done
    ensures var x := RunFrom(InitialState(version, env), defaultBackend, events); var x' := UpdateIngress(x, defaultBackend, u, c).0;
            var i, paths := ServerData.IngressName(u.ingress), HostPaths(u.ingress.rules);
            && ((forall r: Rule :: r.ingress == i ==> (Live(x'.server.cache, r) <==> Live(x.server.cache, r))) <==>
                || u.ingress.rules == []
                || ((forall r :: Live(x.server.cache, r) ==> r.ingress != i) &&
                    (forall j :: 0 <= j < |paths| ==> !Open(Cleared(x.server, u.ingress), u.ingress, PathKey(u.ingress, paths[j])))))
            && (u.ingress.rules == [] ==> x'.server == x.server && x'.cluster == x.cluster)
  {
    hide *;
    var start := InitialState(version, env);
    var x := RunFrom(start, defaultBackend, events);
    EveryRunHasHistory(version, env, defaultBackend, events);
    InvOfRun(History(start, defaultBackend, events));
    forall r | Live(x.server.cache, r)
      ensures r.address < x.server.nextAddress
    {
      LiveIsAllocated(History(start, defaultBackend, events), x.server.nextAddress, r);
    }
    DoneParts(x, defaultBackend, u, c);
    FormerRulesStayExactly(x.server, defaultBackend, u.ingress, c.how);
  }

  lemma DoneParts(x: State, defaultBackend: string, u: Update, c: Choices)
    requires UpdateIngress(x, defaultBackend, u, c).1 == Done
    ensures var x' := UpdateIngress(x, defaultBackend, u, c).0;
            && ServerData.UpdateIngress(x.server, defaultBackend, u.ingress, c.how) == (x'.server, true)
            && (u.ingress.rules == [] ==> x'.server == x.server && x'.cluster == x.cluster)
  {
    hide ServerData.AfterUpdateCache; hide Clusters.ApplyPaths; hide ServerData.UpdateRouteTable; hide UpdateTls; hide ServerData.DeleteIngress;
    hide Clusters.DeleteIngress;
  }
}
