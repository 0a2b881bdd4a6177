/** internal/bfeConfig/annotations: priority.go, router.go and balance.go. */
module Annotations {
  import opened Multimaps
  import opened Kube


  const PRIORITY_BASIC := 10
  const PRIORITY_HEADER := 20
  const PRIORITY_COOKIE := 30
  const PRIORITY_COOKIE_HEADER := 40

  /** Go's map lookup: a missing key yields the empty string. */
  function Lookup(a: Annots, key: AnnotationKey): string {
    if key in a then a[key] else ""
  }

  // ---------------------------------------------------------------- priority.go

  function Priority(a: Annots): int {
    var ok1 := RouterCookie in a;
    var ok2 := RouterHeader in a;
    if ok1 && ok2 then PRIORITY_COOKIE_HEADER
    else if ok1 then PRIORITY_COOKIE
    else if ok2 then PRIORITY_HEADER
    else PRIORITY_BASIC
  }

  /** The nil map of the source is the empty map here: lookups cannot tell them apart. */
  predicate Equal(a: Annots, b: Annots) {
    && Lookup(a, RouterCookie) == Lookup(b, RouterCookie)
    && Lookup(a, RouterHeader) == Lookup(b, RouterHeader)
  }

  // ---------------------------------------------------------------- router.go

  /** One conjunct of a BFE condition; the printed condition strings are not modelled. */
  datatype Primitive =
    | HostIn(host: string)
    | HostWildcard(domain: string)
    | PathIn(path: string)
    | PathElementPrefixIn(prefix: string)
    | CookieValueIn(key: string, value: string)
    | HeaderValueIn(key: string, value: string)

  /** strings.Index for a single byte. */
  function IndexOf(s: string, c: char): int {
    if s == "" then -1
    else if s[0] == c then 0
    else var i := IndexOf(s[1..], c); if i < 0 then -1 else i + 1
  }

  /** strings.TrimSpace on ASCII. */
  function TrimSpace(s: string): string
    decreases |s|
  {
    if s != "" && IsSpace(s[0]) then TrimSpace(s[1..])
    else if s != "" && IsSpace(s[|s| - 1]) then TrimSpace(s[..|s| - 1])
    else s
  }

  predicate IsSpace(c: char) { c in " \t\n\r\U{0B}\U{0C}" }

  /** The shared shape of cookiePrimitive and headerPrimitive: absent, malformed, or key and value. */
  datatype KeyValue = Absent | Malformed | KeyValue(key: string, value: string)

  function ParseKeyValue(annotation: string): KeyValue {
    if annotation == "" then KeyValue.Absent else
      var index := IndexOf(annotation, ':');
      if index < 0 || index >= |annotation| - 1 then Malformed
      else KeyValue(TrimSpace(annotation[..index]), TrimSpace(annotation[index + 1..]))
  }

  /** GetRouteExpression: the cookie conjunct, then the header conjunct; None is the error. */
  function GetRouteExpression(a: Annots): Option<seq<Primitive>> {
    match ParseKeyValue(Lookup(a, RouterCookie))
    case Malformed => None
    case cookie =>
      match ParseKeyValue(Lookup(a, RouterHeader))
      case Malformed => None
      case header =>
        Some((if cookie.KeyValue? then [CookieValueIn(cookie.key, cookie.value)] else []) +
             (if header.KeyValue? then [HeaderValueIn(header.key, header.value)] else []))
  }

  /** A colon that is not the last byte, unless the annotation is empty. */
  predicate WellFormedValue(s: string) {
    s == "" || exists i :: 0 <= i < |s| - 1 && s[i] == ':'
  }

  lemma {:induction false} IndexOfFacts(s: string, c: char)
    ensures -1 <= IndexOf(s, c) < |s|
    ensures IndexOf(s, c) >= 0 ==> s[IndexOf(s, c)] == c
    ensures IndexOf(s, c) < 0 ==> c !in s
    ensures forall i :: 0 <= i < IndexOf(s, c) ==> s[i] != c
  {
    if s != "" && s[0] != c {
      IndexOfFacts(s[1..], c);
      assert s == [s[0]] + s[1..];
    }
  }

  /** GetRouteExpression fails exactly on an annotation without a colon before its last byte. */
  lemma RouteExpressionBuilds(a: Annots)
    ensures GetRouteExpression(a).Some? <==>
            WellFormedValue(Lookup(a, RouterCookie)) && WellFormedValue(Lookup(a, RouterHeader))
  {
    IndexOfFacts(Lookup(a, RouterCookie), ':');
    IndexOfFacts(Lookup(a, RouterHeader), ':');
  }

  /** Only an ingress that carries a cookie or header key can be malformed, and such a rule is never basic. */
  lemma MalformedIsAdvanced(a: Annots)
    requires GetRouteExpression(a).None?
    ensures Priority(a) != PRIORITY_BASIC
  {
  }

  // ---------------------------------------------------------------- balance.go

  const TWO_64 := 0x1_0000_0000_0000_0000

  /** The true sum of the weights of one service. */
  ghost function Sum(w: Weights): int {
    if w == map[] then 0 else
      var k :| k in w;
      w[k] + Sum(w - {k})
  }

  lemma {:induction false} SumRemove(w: Weights, k: string)
    requires k in w
    ensures Sum(w) == w[k] + Sum(w - {k})
    decreases |w|
  {
    var j :| j in w && Sum(w) == w[j] + Sum(w - {j});
    if j != k {
      SumRemove(w - {j}, k);
      SumRemove(w - {k}, j);
      assert w - {j} - {k} == w - {k} - {j};
    }
  }

  lemma {:induction false} SumNonNegative(w: Weights)
    requires forall k :: k in w ==> w[k] >= 0
    ensures Sum(w) >= 0
    ensures Sum(w) > 0 <==> exists k :: k in w && w[k] > 0
    decreases |w|
  {
    if w != map[] {
      var k :| k in w;
      SumRemove(w, k);
      SumNonNegative(w - {k});
      if exists j :: j in w && w[j] > 0 {
        var j :| j in w && w[j] > 0;
        if j != k {
          assert j in w - {k} && (w - {k})[j] == w[j];
        }
      }
    }
  }

  /** What GetBalance accepts for one service: no negative weight, and a 64-bit sum other than zero. */
  ghost predicate Accepted(w: Weights) {
    (forall k :: k in w ==> w[k] >= 0) && Sum(w) % TWO_64 != 0
  }

  ghost predicate AcceptedBalance(b: Balance) {
    forall s :: s in b ==> Accepted(b[s])
  }

  /** Every accepted service has a non-empty weight map with a positive weight. */
  lemma AcceptedIsPositive(w: Weights)
    requires Accepted(w)
    ensures w != map[] && Sum(w) > 0 && exists k :: k in w && w[k] > 0
  {
    SumNonNegative(w);
  }

  /** The documented check, sum of non-negative weights above zero, is met exactly up to a
      multiple of 2^64, where Go's int wraps to zero. */
  lemma AcceptedExactly(w: Weights)
    requires forall k :: k in w ==> w[k] >= 0
    ensures Accepted(w) <==> Sum(w) > 0 && Sum(w) % TWO_64 != 0
    ensures Sum(w) < TWO_64 ==> (Accepted(w) <==> Sum(w) > 0)
  {
    SumNonNegative(w);
  }

  /** Three weights with a positive sum that GetBalance rejects. */
  lemma WrappedSumIsRejected()
    ensures
      var w: Weights := map["a" := 0x7fff_ffff_ffff_ffff, "b" := 0x7fff_ffff_ffff_ffff, "c" := 2];
      Sum(w) > 0 && !Accepted(w)
  {
    var w: Weights := map["a" := 0x7fff_ffff_ffff_ffff, "b" := 0x7fff_ffff_ffff_ffff, "c" := 2];
    SumRemove(w, "a");
    SumRemove(w - {"a"}, "b");
    SumRemove(w - {"a"} - {"b"}, "c");
    assert w - {"a"} - {"b"} - {"c"} == map[];
  }

  /** Go's addition on int. */
  function AddInt64(a: int, b: int): int {
    (a + b + TWO_64 / 2) % TWO_64 - TWO_64 / 2
  }

  lemma AddKeepsResidue(a: int, b: int, total: int)
    requires (total - a) % TWO_64 == 0
    ensures (total + b - AddInt64(a, b)) % TWO_64 == 0
  {
  }

  /** GetBalance after JSON decoding; None is the error, a missing annotation the empty balance. */
  method GetBalance(annotation: BalanceAnnotation) returns (r: Option<Balance>)
    ensures annotation == BalanceAnnotation.Absent ==> r == Some(map[])
    ensures annotation == Undecodable ==> r == None
    ensures annotation.Decoded? ==>
              r == if AcceptedBalance(annotation.balance) then Some(annotation.balance) else None
  {
    match annotation
    case Absent => return Some(map[]);
    case Undecodable => return None;
    case Decoded(lb) =>
      var services := lb.Keys;
      while services != {}
        invariant services <= lb.Keys
        invariant forall s :: s in lb && s !in services ==> Accepted(lb[s])
      {
        var service :| service in services;
        var weights := lb[service];
        var sum := 0;
        var names := weights.Keys;
        ghost var seen: Weights := map[];
        while names != {}
          invariant names <= weights.Keys
          invariant seen == weights - names
          invariant forall k :: k in seen ==> seen[k] >= 0
          invariant -(TWO_64 / 2) <= sum < TWO_64 / 2 && (Sum(seen) - sum) % TWO_64 == 0
        {
          var name :| name in names;
          if weights[name] < 0 {
            assert !Accepted(lb[service]);
            return None;
          }
          names := names - {name};
          ghost var before := seen;
          seen := weights - names;
          assert seen - {name} == before && seen == before[name := weights[name]];
          SumRemove(seen, name);
          AddKeepsResidue(sum, weights[name], Sum(before));
          sum := AddInt64(sum, weights[name]);
        }
        assert seen == weights;
        if sum == 0 {
          assert !Accepted(lb[service]);
          return None;
        }
        services := services - {service};
      }
      return Some(lb);
  }
}
