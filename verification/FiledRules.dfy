/** Which requests the rule of an ingress's path serves, said of the ingress alone: how addRule files hosts and paths, and how
    buildCondition reads them and the router annotations. */
module FiledRules {
  import opened Multimaps
  import opened Kube
  import opened Names
  import opened Annotations
  import opened RouteRules
  import opened Routing
  import opened ServerData

  // ---------------------------------------------------------------- legal hosts and paths

  /** No star, or one at the front before a dot. */
  predicate LegalHost(host: string) {
    '*' !in host || ("*." <= host && '*' !in host[2..])
  }

  predicate LegalPath(path: string) {
    path != "" && '*' !in path
  }

  lemma {:induction false} NoStars(s: string)
    ensures CountStars(s) == 0 <==> '*' !in s
  {
    if s != "" {
      NoStars(s[1..]);
      assert s == [s[0]] + s[1..];
    }
  }

  lemma CheckHostExactly(host: string)
    ensures CheckHost(host) <==> LegalHost(host)
  {
    NoStars(host);
    if "*." <= host {
      NoStars(host[2..]);
      assert host[1..][1..] == host[2..];
      assert CountStars(host[1..]) == CountStars(host[2..]);
      assert CountStars(host) == 1 + CountStars(host[2..]);
    }
  }

  lemma CheckPathExactly(path: string)
    ensures CheckPath(path) <==> LegalPath(path)
  {
  }

  // ---------------------------------------------------------------- hosts and paths of requests

  /** One DNS label. */
  predicate Label(part: string) {
    part != "" && '.' !in part
  }

  /** An ingress host admits every request, those one label below it, or those to the host itself. */
  ghost predicate HostAdmits(host: string, q: Request) {
    if host == "" then true
    else if "*." <= host then (exists part :: Label(part) && q.host == part + "." + host[2..])
    else q.host == host
  }

  /** The exact path, or every path below it. */
  predicate PathAdmits(p: HttpPath, q: Request) {
    if p.pathType == Some(Exact) then q.path == p.path else Slash(p.path) <= Slash(q.path)
  }

  lemma {:induction false} BeforeStops(s: string, c: char)
    ensures c !in Before(s, c)
  {
    if s != "" && s[0] != c {
      BeforeStops(s[1..], c);
    }
  }

  lemma OneLabelExactly(host: string, domain: string)
    ensures OneLabelBefore(host, domain) <==> exists part :: Label(part) && host == part + "." + domain
  {
    if OneLabelBefore(host, domain) {
      BeforeStops(host, '.');
      assert Label(Before(host, '.'));
    }
    if part :| Label(part) && host == part + "." + domain {
      BeforeCut(part, '.', domain);
    }
  }

  lemma HostFiled(host: string, q: Request)
    requires LegalHost(host)
    ensures HostMatches(RuleHost(host), q) <==> HostAdmits(host, q)
  {
    hide OneLabelBefore;
    var h := RuleHost(host);
    if h != "*" {
      assert HostMatches(h, q) <==> Holds(HostPrimitive(h)[0], q);
      OneLabelExactly(q.host, host[if |host| < 2 then |host| else 2..]);
    }
  }

  lemma PathFiled(p: HttpPath, q: Request)
    requires LegalPath(p.path)
    ensures PathMatches(RulePath(p), q) <==> PathAdmits(p, q)
  {
    var path := RulePath(p);
    assert path[|path| - 1] == '*' <==> p.pathType != Some(Exact) by {
      assert p.path[|p.path| - 1] in p.path;
    }
    assert p.pathType != Some(Exact) ==> path[..|path| - 1] == p.path;
    assert PathMatches(path, q) <==> Holds(PathPrimitive(path)[0], q);
  }

  // ---------------------------------------------------------------- router annotations

  predicate AllSpace(s: string) {
    forall i :: 0 <= i < |s| ==> IsSpace(s[i])
  }

  /** t is s without the space around it. */
  ghost predicate Trims(s: string, t: string) {
    exists i, j :: TrimsAt(s, t, i, j)
  }

  predicate TrimsAt(s: string, t: string, i: int, j: int) {
    && 0 <= i <= j <= |s| && t == s[i..j] && AllSpace(s[..i]) && AllSpace(s[j..])
    && (t != "" ==> !IsSpace(t[0]) && !IsSpace(t[|t| - 1]))
  }

  lemma SpaceBefore(s: string, t: string)
    requires s != "" && IsSpace(s[0]) && Trims(s[1..], t)
    ensures Trims(s, t)
  {
    hide IsSpace;
    var rest := s[1..];
    var i, j :| TrimsAt(rest, t, i, j);
    assert s[..i + 1] == [s[0]] + rest[..i] && s[i + 1..j + 1] == rest[i..j] && s[j + 1..] == rest[j..];
    assert TrimsAt(s, t, i + 1, j + 1);
  }

  lemma SpaceAfter(s: string, t: string)
    requires s != "" && IsSpace(s[|s| - 1]) && Trims(s[..|s| - 1], t)
    ensures Trims(s, t)
  {
    hide IsSpace;
    var front := s[..|s| - 1];
    var i, j :| TrimsAt(front, t, i, j);
    assert s[..i] == front[..i] && s[i..j] == front[i..j] && s[j..] == front[j..] + [s[|s| - 1]];
    assert TrimsAt(s, t, i, j);
  }

  lemma {:induction false} TrimSpaceTrims(s: string)
    ensures Trims(s, TrimSpace(s))
    decreases |s|
  {
    hide IsSpace; hide Trims;
    if s != "" && IsSpace(s[0]) {
      TrimSpaceTrims(s[1..]);
      SpaceBefore(s, TrimSpace(s[1..]));
    } else if s != "" && IsSpace(s[|s| - 1]) {
      TrimSpaceTrims(s[..|s| - 1]);
      SpaceAfter(s, TrimSpace(s[..|s| - 1]));
    } else {
      NothingToTrim(s);
    }
  }

  lemma NothingToTrim(s: string)
    requires s != "" ==> !IsSpace(s[0]) && !IsSpace(s[|s| - 1])
    ensures Trims(s, s)
  {
    hide IsSpace;
    assert TrimsAt(s, s, 0, |s|);
  }

  /** There is one way to trim. */
  lemma TrimsOnce(s: string, t: string, u: string)
    requires Trims(s, t) && Trims(s, u)
    ensures t == u
  {
    hide IsSpace;
    var i, j :| TrimsAt(s, t, i, j);
    var k, l :| TrimsAt(s, u, k, l);
    TrimsInside(s, t, i, j, u, k, l);
    TrimsInside(s, u, k, l, t, i, j);
  }

  lemma SpaceAround(s: string, k: int, l: int, x: int)
    requires 0 <= k <= l <= |s| && AllSpace(s[..k]) && AllSpace(s[l..]) && 0 <= x < |s| && !IsSpace(s[x])
    ensures k <= x < l
  {
    hide IsSpace;
    assert forall y :: 0 <= y < k ==> s[..k][y] == s[y];
    assert forall y :: l <= y < |s| ==> s[l..][y - l] == s[y];
  }

  lemma TrimsInside(s: string, t: string, i: int, j: int, u: string, k: int, l: int)
    requires TrimsAt(s, t, i, j) && TrimsAt(s, u, k, l)
    ensures t != "" ==> k <= i && j <= l
  {
    hide IsSpace;
    if t != "" {
      assert t[0] == s[i] && t[|t| - 1] == s[j - 1];
      SpaceAround(s, k, l, i);
      SpaceAround(s, k, l, j - 1);
    }
  }

  /** An annotation asks for value v under name k: they stand before and after the first colon, space aside, and something
      follows the colon. */
  ghost predicate AsksFor(annotation: string, k: string, v: string) {
    exists left, right :: Splits(annotation, left, right) && right != "" && Trims(left, k) && Trims(right, v)
  }

  predicate Splits(s: string, left: string, right: string) {
    s == left + ":" + right && ':' !in left
  }

  lemma SplitsOnce(s: string, left: string, right: string)
    requires Splits(s, left, right)
    ensures IndexOf(s, ':') == |left| && left == s[..|left|] && right == s[|left| + 1..]
  {
    IndexOfFacts(s, ':');
    assert s[|left|] == ':';
    assert forall i :: 0 <= i < |left| ==> s[i] == left[i] && left[i] in left;
  }

  lemma IndexSplits(s: string)
    requires 0 <= IndexOf(s, ':') < |s|
    ensures Splits(s, s[..IndexOf(s, ':')], s[IndexOf(s, ':') + 1..])
  {
    hide IndexOf;
    IndexOfFacts(s, ':');
    var i := IndexOf(s, ':');
    assert s == s[..i] + [s[i]] + s[i + 1..];
    assert s[i] == ':';
  }

  lemma ParsesExactly(annotation: string, k: string, v: string)
    requires annotation != ""
    ensures ParseKeyValue(annotation) == KeyValue(k, v) <==> AsksFor(annotation, k, v)
  {
    hide IndexOf; hide TrimSpace; hide Trims; hide Splits;
    IndexOfFacts(annotation, ':');
    var index := IndexOf(annotation, ':');
    if ParseKeyValue(annotation) == KeyValue(k, v) {
      IndexSplits(annotation);
      TrimSpaceTrims(annotation[..index]);
      TrimSpaceTrims(annotation[index + 1..]);
    }
    if left, right :| Splits(annotation, left, right) && right != "" && Trims(left, k) && Trims(right, v) {
      SplitsOnce(annotation, left, right);
      TrimSpaceTrims(left);
      TrimSpaceTrims(right);
      TrimsOnce(left, k, TrimSpace(left));
      TrimsOnce(right, v, TrimSpace(right));
    }
  }

  /** No annotation asks for nothing; otherwise the request carries the value under the name. */
  ghost predicate Carries(annotation: string, m: map<string, string>) {
    annotation == "" || exists k :: k in m && AsksFor(annotation, k, m[k])
  }

  ghost predicate AnnotationsAdmit(a: Annots, q: Request) {
    Carries(Lookup(a, RouterCookie), q.cookies) && Carries(Lookup(a, RouterHeader), q.headers)
  }

  lemma CarriesExactly(annotation: string, m: map<string, string>)
    ensures Carries(annotation, m) <==>
            (var kv := ParseKeyValue(annotation);
             kv == KeyValue.Absent || (kv.KeyValue? && kv.key in m && m[kv.key] == kv.value))
  {
    hide AsksFor; hide IndexOf; hide TrimSpace;
    if annotation != "" {
      forall k | k in m
        ensures ParseKeyValue(annotation) == KeyValue(k, m[k]) <==> AsksFor(annotation, k, m[k])
      {
        ParsesExactly(annotation, k, m[k]);
      }
    }
  }

  lemma AnnotationsExactly(a: Annots, q: Request)
    ensures AnnotationsAdmit(a, q) <==> GetRouteExpression(a).Some? && AllHold(GetRouteExpression(a).value, q)
  {
    hide Carries; hide ParseKeyValue;
    CarriesExactly(Lookup(a, RouterCookie), q.cookies);
    CarriesExactly(Lookup(a, RouterHeader), q.headers);
    var cookie, header := ParseKeyValue(Lookup(a, RouterCookie)), ParseKeyValue(Lookup(a, RouterHeader));
    if GetRouteExpression(a).Some? {
      var ps := GetRouteExpression(a).value;
      assert forall p :: p in ps <==>
        (cookie.KeyValue? && p == CookieValueIn(cookie.key, cookie.value)) || (header.KeyValue? && p == HeaderValueIn(header.key, header.value));
      if cookie.KeyValue? {
        assert CookieValueIn(cookie.key, cookie.value) in ps;
      }
      if header.KeyValue? {
        assert HeaderValueIn(header.key, header.value) in ps;
      }
    }
  }

  // ---------------------------------------------------------------- the rule of a path

  /** The requests that a path of an ingress is for. */
  ghost predicate Admits(ingress: Ingress, host: string, p: HttpPath, q: Request) {
    HostAdmits(host, q) && PathAdmits(p, q) && AnnotationsAdmit(ingress.annotations, q)
  }

  lemma MatchesByPart(r: Rule, q: Request)
    ensures Matches(r, q) <==> HostMatches(r.host, q) && PathMatches(r.path, q) &&
                               GetRouteExpression(r.annotations).Some? && AllHold(GetRouteExpression(r.annotations).value, q)
  {
    hide HostPrimitive; hide PathPrimitive; hide GetRouteExpression; hide Holds;
    if GetRouteExpression(r.annotations).Some? {
      var a, b, c := HostPrimitive(r.host), PathPrimitive(r.path), GetRouteExpression(r.annotations).value;
      assert BuildCondition(r.host, r.path, r.annotations) == Some(a + b + c);
      assert forall p :: p in a + b + c <==> p in a || p in b || p in c;
    }
  }

  /** The rule that addRule files for a path serves exactly the requests the path is for, and sends them to the path's cluster. */
  lemma RuleServesPath(ingress: Ingress, host: string, p: HttpPath, address: nat, q: Request)
    requires LegalHost(host) && LegalPath(p.path)
    ensures var r := RuleOf(ingress, host, p, address);
            && (Matches(r, q) <==> Admits(ingress, host, p, q))
            && r.ingress == ingress.namespace + "/" + ingress.name && r.createTime == ingress.creationTimestamp
            && r.cluster == ClusterName(r.ingress, p.backend) && r.annotations == ingress.annotations
  {
    hide HostMatches; hide PathMatches; hide GetRouteExpression; hide HostAdmits; hide PathAdmits; hide AnnotationsAdmit; hide Matches; hide AllHold;
    hide RuleHost; hide RulePath; hide ClusterName;
    MatchesByPart(RuleOf(ingress, host, p, address), q);
    HostFiled(host, q);
    PathFiled(p, q);
    AnnotationsExactly(ingress.annotations, q);
  }
}
