/** What a rendered route table says, read as BFE reads it: which cluster the first advanced entry that holds names, and which
    entry each host and path has in the basic table. */
module RouteTables {
  import opened Multimaps
  import opened Kube
  import opened Names
  import opened RouteRules
  import opened RuleLists
  import opened Routing
  import opened ServerData
  import opened ServerInvariants
  import opened FailedUpdates

  // ---------------------------------------------------------------- the advanced table

  /** default_t() holds of every request. */
  predicate ConditionHolds(c: Condition, q: Request) {
    match c
    case Always => true
    case AllOf(ps) => AllHold(ps, q)
  }

  /** Entry i is the first that holds. */
  ghost predicate FirstToHold(entries: seq<AdvancedRouteRule>, q: Request, i: int) {
    0 <= i < |entries| && ConditionHolds(entries[i].condition, q) && forall j :: 0 <= j < i ==> !ConditionHolds(entries[j].condition, q)
  }

  /** The cluster of the first entry that holds. */
  function ServedFrom(entries: seq<AdvancedRouteRule>, q: Request): (r: Option<string>)
    ensures r.Some? ==> exists i :: FirstToHold(entries, q, i) && entries[i].cluster == r.value
    ensures r.None? ==> forall i :: 0 <= i < |entries| ==> !ConditionHolds(entries[i].condition, q)
  {
    if entries == [] then None
    else if ConditionHolds(entries[0].condition, q) then
      assert FirstToHold(entries, q, 0);
      Some(entries[0].cluster)
    else
      var r := ServedFrom(entries[1..], q);
      assert forall i :: 0 < i < |entries| ==> entries[i] == entries[1..][i - 1];
      assert r.Some? ==> exists i :: FirstToHold(entries, q, i) && entries[i].cluster == r.value by {
        if r.Some? {
          var i :| FirstToHold(entries[1..], q, i) && entries[1..][i].cluster == r.value;
          assert FirstToHold(entries, q, i + 1);
        }
      }
      r
  }

  /** The entry is for the requests that match the rule, and names its cluster. */
  ghost predicate EntryServes(entry: AdvancedRouteRule, r: Rule) {
    entry.cluster == r.cluster && forall q :: ConditionHolds(entry.condition, q) <==> Matches(r, q)
  }

  ghost predicate EntriesServe(entries: seq<AdvancedRouteRule>, rules: seq<Rule>) {
    |entries| == |rules| && forall i :: 0 <= i < |rules| ==> EntryServes(entries[i], rules[i])
  }

  lemma EntryOfRule(r: Rule)
    requires Builds(r)
    ensures EntryServes(AdvancedRouteRule(AllOf(BuildCondition(r.host, r.path, r.annotations).value), r.cluster), r)
  {
    hide BuildCondition; hide AllHold;
  }

  lemma {:induction false} EntriesOfRules(rules: seq<Rule>)
    requires AdvancedFiles(rules).Some?
    ensures EntriesServe(AdvancedFiles(rules).value, rules)
  {
    hide BuildCondition; hide EntryServes;
    if rules != [] {
      EntriesOfRules(rules[..|rules| - 1]);
      EntryOfRule(rules[|rules| - 1]);
    }
  }

  lemma {:induction false} ServesFirstMatch(entries: seq<AdvancedRouteRule>, rest: seq<AdvancedRouteRule>, rules: seq<Rule>, q: Request)
    requires EntriesServe(entries, rules)
    ensures ServedFrom(entries + rest, q) == if FirstMatch(rules, q).Some? then Some(FirstMatch(rules, q).value.cluster) else ServedFrom(rest, q)
  {
    hide Matches; hide ConditionHolds;
    if rules == [] {
      assert entries + rest == rest;
    } else {
      assert (entries + rest)[1..] == entries[1..] + rest;
      assert EntryServes(entries[0], rules[0]);
      ServesFirstMatch(entries[1..], rest, rules[1..], q);
    }
  }

  lemma ServesDefault(defaultBackend: string, any: bool, q: Request)
    ensures ServedFrom(DefaultFiles(defaultBackend, any), q) == if defaultBackend != "" && any then Some(DefaultClusterName(defaultBackend)) else None
  {
    hide DefaultClusterName;
  }

  /** get returns something exactly when there is a rule. */
  lemma AnyListed(c: Cache, e: Enumeration)
    requires RouteRules.Inv(c) && Enumerates(e, c.ruleMap)
    ensures GetBasic(c.ruleMap, e) != [] || GetAdvanced(c.ruleMap, e) != [] <==> exists r :: Live(c, r)
  {
    hide GetBasic; hide GetAdvanced; hide RouteRules.Inv; hide Enumerates; hide BasicEntry;
    var basic, advanced := GetBasic(c.ruleMap, e), GetAdvanced(c.ruleMap, e);
    if basic != [] {
      BasicMembers(c, e, basic[0]);
      var b := Bucket(c.ruleMap, basic[0].host, basic[0].path);
      RuleOfBucket(c, basic[0].host, basic[0].path, b[0]);
    }
    if advanced != [] {
      AdvancedExactly(c, e, advanced[0]);
    }
    if r :| Live(c, r) {
      var entry := BasicEntry(Bucket(c.ruleMap, r.host, r.path));
      EntryPlace(c, r);
      BasicMembers(c, e, entry);
    }
  }

  lemma EntryPlace(c: Cache, r: Rule)
    requires RouteRules.Inv(c) && Live(c, r)
    ensures var b := Bucket(c.ruleMap, r.host, r.path); b != [] && BasicEntry(b).host == r.host && BasicEntry(b).path == r.path
  {
    var b := Bucket(c.ruleMap, r.host, r.path);
    RuleOfBucket(c, r.host, r.path, b[0]);
  }

  /** A rendered table sends a request to the cluster of the rule it is routed to; without such a rule to the default cluster, if
      there is a default backend and any rule at all; and else nowhere. */
  lemma TableServes(c: Cache, defaultBackend: string, e: Enumeration, q: Request)
    requires RouteRules.Inv(c) && Enumerates(e, c.ruleMap) && Render(c, defaultBackend, e).Some?
    ensures ServedFrom(Render(c, defaultBackend, e).value.advanced, q) ==
            if Route(c, e, q).Some? then Some(Route(c, e, q).value.cluster)
            else if defaultBackend != "" && exists r :: Live(c, r) then Some(DefaultClusterName(defaultBackend))
            else None
  {
    hide GetBasic; hide GetAdvanced; hide RouteRules.Inv; hide Enumerates; hide AdvancedFiles; hide BasicFiles; hide DefaultFiles; hide ServedFrom;
    hide FirstMatch; hide ConditionHolds; hide Matches; hide DefaultClusterName;
    var basic, advanced := GetBasic(c.ruleMap, e), GetAdvanced(c.ruleMap, e);
    EntriesOfRules(advanced);
    ServesFirstMatch(AdvancedFiles(advanced).value, DefaultFiles(defaultBackend, basic != [] || advanced != []), advanced, q);
    ServesDefault(defaultBackend, basic != [] || advanced != [], q);
    AnyListed(c, e);
  }

  /** The same of the table of a state in sync, in terms of the live rules alone: the cluster is that of a matching advanced rule
      that no matching advanced rule precedes. */
  ghost predicate ServesRightly(c: Cache, t: RouteTable, defaultBackend: string, q: Request) {
    if exists r :: Contender(c, q, r)
    then exists r :: Contender(c, q, r) && ServedFrom(t.advanced, q) == Some(r.cluster)
    else ServedFrom(t.advanced, q) == if defaultBackend != "" && exists r :: Live(c, r) then Some(DefaultClusterName(defaultBackend)) else None
  }

  lemma InSyncServes(s: ServerState, defaultBackend: string, q: Request)
    requires RouteRules.Inv(s.cache) && InSync(s, defaultBackend)
    ensures ServesRightly(s.cache, s.routeTable, defaultBackend, q)
  {
    hide RouteRules.Inv; hide Enumerates; hide Render; hide ServedFrom; hide Contender; hide Route; hide DefaultClusterName; hide Live;
    var e :| Enumerates(e, s.cache.ruleMap) && Render(s.cache, defaultBackend, e) == Some(s.routeTable);
    TableServes(s.cache, defaultBackend, e, q);
    if Route(s.cache, e, q).Some? {
      var i := RouteIsContender(s.cache, e, q);
      assert Contender(s.cache, q, Route(s.cache, e, q).value);
    }
    if r :| Contender(s.cache, q, r) {
      NoRouteNoContender(s.cache, e, q, r);
    }
  }

  // ---------------------------------------------------------------- the basic table

  /** The entry is for the host, where any host is none, and the path. */
  predicate EntryOf(entry: BasicRouteRule, h: string, p: string) {
    entry.hostname == (if h == "*" then None else Some(h)) && entry.path == Some(p)
  }

  /** Neither router annotation. */
  predicate Unconditional(r: Rule) {
    RouterCookie !in r.annotations && RouterHeader !in r.annotations
  }

  /** The cluster of a single unconditional rule, or the mark that sends BFE to the advanced table. */
  function EntryCluster(b: seq<Rule>): string {
    if |b| == 1 && Unconditional(b[0]) then b[0].cluster else "ADVANCED_MODE"
  }

  lemma BasicEntryIs(b: seq<Rule>)
    requires b != []
    ensures BasicEntry(b).host == b[0].host && BasicEntry(b).path == b[0].path && BasicEntry(b).cluster == EntryCluster(b)
  {
  }

  /** Entry i is that of the host and path. */
  predicate PlaceEntry(c: Cache, t: RouteTable, h: string, p: string, i: int) {
    && 0 <= i < |t.basic| && EntryOf(t.basic[i], h, p)
    && t.basic[i].cluster == EntryCluster(Bucket(c.ruleMap, h, p))
  }

  ghost predicate HasPlace(c: Cache, t: RouteTable, i: int) {
    exists h, p :: Bucket(c.ruleMap, h, p) != [] && PlaceEntry(c, t, h, p, i)
  }

  ghost predicate BasicTable(c: Cache, t: RouteTable) {
    && (forall h, p :: Bucket(c.ruleMap, h, p) != [] ==> exists i :: PlaceEntry(c, t, h, p, i))
    && (forall i :: 0 <= i < |t.basic| ==> HasPlace(c, t, i))
    && (forall i, j, h, p :: PlaceEntry(c, t, h, p, i) && PlaceEntry(c, t, h, p, j) ==> i == j)
  }

  /** The basic table has exactly one entry for each host and path with a rule, and no others: with the cluster of the rule when it
      is the only one and unconditional, and else with the mark. */
  lemma BasicTableExactly(c: Cache, defaultBackend: string, e: Enumeration)
    requires RouteRules.Inv(c) && AllChecked(c) && Enumerates(e, c.ruleMap) && Render(c, defaultBackend, e).Some?
    ensures BasicTable(c, Render(c, defaultBackend, e).value)
  {
    hide GetBasic; hide GetAdvanced; hide RouteRules.Inv; hide Enumerates; hide AdvancedFiles; hide EntryCluster; hide Bucket;
    hide DefaultFiles; hide AllChecked; hide OneEntryPerPlace; hide EntryOf; hide BasicTable;
    var basic, t := GetBasic(c.ruleMap, e), Render(c, defaultBackend, e).value;
    GetConserves(c, e);
    PlacesListed(c, basic);
    forall i, h, p | 0 <= i < |basic|
      ensures EntryOf(t.basic[i], h, p) <==> h == basic[i].host && p == basic[i].path
      ensures t.basic[i].cluster == basic[i].cluster
    {
      PlaceChecked(c, basic[i].host, basic[i].path);
      FileOfEntry(basic[i], h, p);
    }
    PlacesMakeTable(c, t, basic);
  }

  lemma PlacesMakeTable(c: Cache, t: RouteTable, basic: seq<Rule>)
    requires |t.basic| == |basic|
    requires forall i, h, p :: 0 <= i < |basic| ==> (EntryOf(t.basic[i], h, p) <==> h == basic[i].host && p == basic[i].path)
    requires forall i :: 0 <= i < |basic| ==>
               var b := Bucket(c.ruleMap, basic[i].host, basic[i].path); b != [] && t.basic[i].cluster == EntryCluster(b)
    requires forall i, j :: 0 <= i < |basic| && 0 <= j < |basic| && basic[i].host == basic[j].host && basic[i].path == basic[j].path ==> i == j
    requires forall h, p :: Bucket(c.ruleMap, h, p) != [] ==> exists i :: 0 <= i < |basic| && basic[i].host == h && basic[i].path == p
    ensures BasicTable(c, t)
  {
    hide EntryOf; hide EntryCluster; hide Bucket;
    forall h, p | Bucket(c.ruleMap, h, p) != []
      ensures exists i :: PlaceEntry(c, t, h, p, i)
    {
      var i :| 0 <= i < |basic| && basic[i].host == h && basic[i].path == p;
      assert PlaceEntry(c, t, h, p, i);
    }
    forall i | 0 <= i < |t.basic|
      ensures HasPlace(c, t, i)
    {
      assert PlaceEntry(c, t, basic[i].host, basic[i].path, i);
    }
    forall i, j, h, p | PlaceEntry(c, t, h, p, i) && PlaceEntry(c, t, h, p, j)
      ensures i == j
    {
      assert basic[i].host == h && basic[j].host == h;
    }
  }

  lemma FileOfEntry(r: Rule, h: string, p: string)
    requires r.host != "" && r.path != ""
    ensures EntryOf(BasicFile(r), h, p) <==> h == r.host && p == r.path
    ensures BasicFile(r).cluster == r.cluster
  {
  }

  lemma PlaceChecked(c: Cache, h: string, p: string)
    requires RouteRules.Inv(c) && AllChecked(c) && Bucket(c.ruleMap, h, p) != []
    ensures h != "" && p != ""
  {
    RuleOfBucket(c, h, p, Bucket(c.ruleMap, h, p)[0]);
  }

  lemma PlacesListed(c: Cache, basic: seq<Rule>)
    requires RouteRules.Inv(c) && OneEntryPerPlace(c, basic)
    ensures forall i :: 0 <= i < |basic| ==>
              var b := Bucket(c.ruleMap, basic[i].host, basic[i].path); b != [] && basic[i].cluster == EntryCluster(b)
    ensures forall i, j :: 0 <= i < |basic| && 0 <= j < |basic| && basic[i].host == basic[j].host && basic[i].path == basic[j].path ==> i == j
    ensures forall h, p :: Bucket(c.ruleMap, h, p) != [] ==> exists i :: 0 <= i < |basic| && basic[i].host == h && basic[i].path == p
  {
    hide RouteRules.Inv; hide EntryCluster; hide BasicEntry;
    forall i | 0 <= i < |basic|
      ensures var b := Bucket(c.ruleMap, basic[i].host, basic[i].path); b != [] && basic[i].cluster == EntryCluster(b)
    {
      BasicEntryIs(Bucket(c.ruleMap, basic[i].host, basic[i].path));
    }
  }

  /** A table in sync has these entries. */
  lemma InSyncBasic(s: ServerState, defaultBackend: string)
    requires CacheOk(s.cache) && InSync(s, defaultBackend)
    ensures BasicTable(s.cache, s.routeTable)
  {
    hide RouteRules.Inv; hide Enumerates; hide Render; hide BasicTable; hide AllChecked;
    var e :| Enumerates(e, s.cache.ruleMap) && Render(s.cache, defaultBackend, e) == Some(s.routeTable);
    BasicTableExactly(s.cache, defaultBackend, e);
  }
}
