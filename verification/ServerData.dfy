/** The state of ServerDataConfig (internal/bfeConfig/configs/serverDataConfig.go) and its updates as functions. */
module ServerData {
  import opened Multimaps
  import opened Kube
  import opened Names
  import opened Annotations
  import opened RouteRules
  import opened RuleLists
  import opened Routing

  type Version = nat

  /** route_rule_conf.BasicRouteRuleFile, where no host or path means any. */
  datatype BasicRouteRule = BasicRouteRule(hostname: Option<string>, path: Option<string>, cluster: string)

  datatype Condition = Always | AllOf(primitives: seq<Primitive>)

  datatype AdvancedRouteRule = AdvancedRouteRule(condition: Condition, cluster: string)

  datatype RouteTable = RouteTable(basic: seq<BasicRouteRule>, advanced: seq<AdvancedRouteRule>)

  datatype ServerState = ServerState(
    cache: Cache,
    nextAddress: nat,
    routeTable: RouteTable,
    clusterConf: set<string>,
    hostVersion: Version,
    routeVersion: Version,
    clusterVersion: Version,
    clock: Version)

  function InitialState(version: Version): ServerState {
    ServerState(EMPTY_CACHE, 0, RouteTable([], []), {}, version, version, version, version)
  }

  // ---------------------------------------------------------------- the rule cache

  function CountStars(s: string): nat {
    if s == "" then 0 else (if s[0] == '*' then 1 else 0) + CountStars(s[1..])
  }

  predicate CheckHost(host: string) {
    !(CountStars(host) > 1 || (CountStars(host) == 1 && !("*." <= host)))
  }

  predicate CheckPath(path: string) {
    path != "" && '*' !in path
  }

  /** The host a rule is filed under: no host means every host. */
  function RuleHost(host: string): string {
    if host == "" then "*" else host
  }

  function RulePath(p: HttpPath): string {
    if p.pathType.None? || p.pathType.value.Prefix? || p.pathType.value.ImplementationSpecific? then p.path + "*" else p.path
  }

  function IngressName(ingress: Ingress): string {
    NamespacedName(ingress.namespace, ingress.name)
  }

  function RuleOf(ingress: Ingress, host: string, p: HttpPath, address: nat): Rule {
    Rule(address, IngressName(ingress), RuleHost(host), RulePath(p), ingress.annotations,
         ClusterName(IngressName(ingress), p.backend), ingress.creationTimestamp)
  }

  /** addRule: an illegal host or path and a conflict with an older rule are errors. */
  function AddRule(c: Cache, ingress: Ingress, host: string, p: HttpPath, address: nat): (Cache, bool) {
    if !CheckHost(host) || !CheckPath(p.path) then (c, false)
    else RouteRules.Put(c, RuleOf(ingress, host, p, address))
  }

  /** updateCache stops at the first error. The addresses of the new rules count up from the given one. */
  function UpdateCache(c: Cache, ingress: Ingress, paths: seq<(string, HttpPath)>, address: nat): (Cache, bool) {
    if paths == [] then (c, true) else
      var (c1, ok) := UpdateCache(c, ingress, paths[..|paths| - 1], address);
      var last := paths[|paths| - 1];
      if !ok then (c1, false) else AddRule(c1, ingress, last.0, last.1, address + |paths| - 1)
  }

  // ---------------------------------------------------------------- rendering

  function BasicFile(r: Rule): BasicRouteRule {
    BasicRouteRule(if r.host != "" && r.host != "*" then Some(r.host) else None,
                   if r.path != "" then Some(r.path) else None, r.cluster)
  }

  function BasicFiles(rules: seq<Rule>): seq<BasicRouteRule> {
    seq(|rules|, i requires 0 <= i < |rules| => BasicFile(rules[i]))
  }

  /** None as soon as one condition does not build. */
  function AdvancedFiles(rules: seq<Rule>): Option<seq<AdvancedRouteRule>> {
    if rules == [] then Some([]) else
      var last := rules[|rules| - 1];
      match AdvancedFiles(rules[..|rules| - 1])
      case None => None
      case Some(files) =>
        match BuildCondition(last.host, last.path, last.annotations)
        case None => None
        case Some(condition) => Some(files + [AdvancedRouteRule(AllOf(condition), last.cluster)])
  }

  function DefaultFiles(defaultBackend: string, any: bool): seq<AdvancedRouteRule> {
    if defaultBackend != "" && any then [AdvancedRouteRule(Always, DefaultClusterName(defaultBackend))] else []
  }

  /** The table that updateRouteTable builds from the two lists. */
  function RenderLists(defaultBackend: string, basic: seq<Rule>, advanced: seq<Rule>): Option<RouteTable> {
    match AdvancedFiles(advanced)
    case None => None
    case Some(files) =>
      Some(RouteTable(BasicFiles(basic), files + DefaultFiles(defaultBackend, basic != [] || advanced != [])))
  }

  function Render(c: Cache, defaultBackend: string, e: Enumeration): Option<RouteTable> {
    RenderLists(defaultBackend, GetBasic(c.ruleMap, e), GetAdvanced(c.ruleMap, e))
  }

  /** The clusters that updateBfeClusterConf configures for the two lists. */
  function ConfClusters(defaultBackend: string, basic: seq<Rule>, advanced: seq<Rule>): set<string> {
    BasicNames(basic) + AdvancedNames(advanced) +
    if defaultBackend != "" && (basic != [] || advanced != []) then {DefaultClusterName(defaultBackend)} else {}
  }

  function BasicNames(rules: seq<Rule>): set<string> {
    set r | r in rules && r.cluster != ADVANCED_MODE :: r.cluster
  }

  function AdvancedNames(rules: seq<Rule>): set<string> {
    set r | r in rules :: r.cluster
  }

  function Configured(c: Cache, defaultBackend: string, e: Enumeration): set<string> {
    ConfClusters(defaultBackend, GetBasic(c.ruleMap, e), GetAdvanced(c.ruleMap, e))
  }

  /** updateRouteTable; accepted is the verdict of route_rule_conf.Convert. */
  function UpdateRouteTable(s: ServerState, defaultBackend: string, e: Enumeration, accepted: bool): (ServerState, bool) {
    match Render(s.cache, defaultBackend, e)
    case None => (s, false)
    case Some(table) =>
      if accepted then (s.(routeTable := table, routeVersion := s.clock + 1, clock := s.clock + 1), true) else (s, false)
  }

  function UpdateBfeClusterConf(s: ServerState, defaultBackend: string, e: Enumeration): ServerState {
    s.(clusterConf := Configured(s.cache, defaultBackend, e), clusterVersion := s.clock + 1, clock := s.clock + 1)
  }

  // ---------------------------------------------------------------- ingress events

  /** What happens to be outside the program's control in one rendering: the two map iterations and
      the verdict of the library. */
  datatype Rendering = Rendering(first: Enumeration, accepted: bool, second: Enumeration)

  function AfterUpdateCache(s: ServerState, ingress: Ingress): (ServerState, bool) {
    var deleted := if IngressName(ingress) in s.cache.ingress2Rule then RouteRules.Delete(s.cache, IngressName(ingress)) else s.cache;
    var paths := HostPaths(ingress.rules);
    var (c, ok) := UpdateCache(deleted, ingress, paths, s.nextAddress);
    (s.(cache := c, nextAddress := s.nextAddress + |paths|), ok)
  }

  function UpdateIngress(s: ServerState, defaultBackend: string, ingress: Ingress, how: Rendering): (ServerState, bool) {
    if ingress.rules == [] then (s, true) else
      var (s1, cached) := AfterUpdateCache(s, ingress);
      if !cached then (s1.(cache := RouteRules.Delete(s1.cache, IngressName(ingress))), false) else
        var (s2, rendered) := UpdateRouteTable(s1, defaultBackend, how.first, how.accepted);
        if !rendered then (s2.(cache := RouteRules.Delete(s2.cache, IngressName(ingress))), false)
        else (UpdateBfeClusterConf(s2, defaultBackend, how.second), true)
  }

  /** DeleteIngress ignores the error of updateRouteTable. */
  function DeleteIngress(s: ServerState, defaultBackend: string, namespace: string, name: string, how: Rendering): ServerState {
    var ingressName := NamespacedName(namespace, name);
    if ingressName !in s.cache.ingress2Rule then s else
      var s1 := s.(cache := RouteRules.Delete(s.cache, ingressName));
      UpdateBfeClusterConf(UpdateRouteTable(s1, defaultBackend, how.first, how.accepted).0, defaultBackend, how.second)
  }

  // ---------------------------------------------------------------- the same as relations on values

  predicate AddsPath(c: Cache, ingress: Ingress, host: string, p: HttpPath, address: nat, after: Cache, ok: bool) {
    (after, ok) == AddRule(c, ingress, host, p, address)
  }

  predicate AddsPaths(c: Cache, ingress: Ingress, paths: seq<(string, HttpPath)>, address: nat, after: Cache, ok: bool) {
    (after, ok) == UpdateCache(c, ingress, paths, address)
  }

  predicate Caches(s: ServerState, ingress: Ingress, after: ServerState, ok: bool) {
    (after, ok) == AfterUpdateCache(s, ingress)
  }

  predicate Drops(s: ServerState, ingressName: string, after: ServerState) {
    after == s.(cache := RouteRules.Delete(s.cache, ingressName))
  }

  predicate Renders(s: ServerState, defaultBackend: string, e: Enumeration, accepted: bool, after: ServerState, ok: bool) {
    (after, ok) == UpdateRouteTable(s, defaultBackend, e, accepted)
  }

  predicate Configures(s: ServerState, defaultBackend: string, e: Enumeration, after: ServerState) {
    after == UpdateBfeClusterConf(s, defaultBackend, e)
  }

  predicate Updates(s: ServerState, defaultBackend: string, ingress: Ingress, how: Rendering, after: ServerState, ok: bool) {
    (after, ok) == UpdateIngress(s, defaultBackend, ingress, how)
  }

  predicate Deletes(s: ServerState, defaultBackend: string, namespace: string, name: string, how: Rendering, after: ServerState) {
    after == DeleteIngress(s, defaultBackend, namespace, name, how)
  }

  /** how is possible: both iterations enumerate the cache they are taken from. */
  ghost predicate Fits(how: Rendering, c: Cache) {
    Enumerates(how.first, c.ruleMap) && Enumerates(how.second, c.ruleMap)
  }

  ghost predicate UpdatePossible(s: ServerState, ingress: Ingress, how: Rendering) {
    ingress.rules != [] && AfterUpdateCache(s, ingress).1 ==> Fits(how, AfterUpdateCache(s, ingress).0.cache)
  }

  ghost predicate DeletePossible(s: ServerState, namespace: string, name: string, how: Rendering) {
    NamespacedName(namespace, name) in s.cache.ingress2Rule ==> Fits(how, RouteRules.Delete(s.cache, NamespacedName(namespace, name)))
  }
}
