/** internal/bfeConfig/util/name.go: printing cluster names and parsing the port back. */
module Names {
  import opened Multimaps
  import opened Kube

  const INT32_MAX := 0x7fff_ffff

  // ---------------------------------------------------------------- strconv and strings

  predicate IsDigit(c: char) { '0' <= c <= '9' }

  predicate IsLetter(c: char) { 'a' <= c <= 'z' || 'A' <= c <= 'Z' }

  predicate AllDigits(s: string) {
    forall i :: 0 <= i < |s| ==> IsDigit(s[i])
  }

  /** fmt.Sprintf("%d", n) */
  function Decimal(n: nat): string {
    if n < 10 then [Digit(n)] else Decimal(n / 10) + [Digit(n % 10)]
  }

  function Digit(d: nat): char
    requires d < 10
  {
    "0123456789"[d]
  }

  function DigitValue(c: char): nat
    requires IsDigit(c)
  {
    c as int - '0' as int
  }

  function DigitsValue(s: string): nat
    requires AllDigits(s)
  {
    if s == "" then 0 else 10 * DigitsValue(s[..|s| - 1]) + DigitValue(s[|s| - 1])
  }

  /** strconv.Atoi on a 64-bit platform: an optional sign, then digits, within the range of int64. */
  function Atoi(s: string): Option<int> {
    var signed := s != "" && (s[0] == '-' || s[0] == '+');
    var digits := if signed then s[1..] else s;
    if digits == "" || !AllDigits(digits) then None else
      var n := if signed && s[0] == '-' then -(DigitsValue(digits) as int) else DigitsValue(digits);
      if -0x8000_0000_0000_0000 <= n <= 0x7fff_ffff_ffff_ffff then Some(n) else None
  }

  /** Go's conversion int32(i). */
  function ToInt32(i: int): int {
    (i + 0x8000_0000) % 0x1_0000_0000 - 0x8000_0000
  }

  /** strings.LastIndexByte */
  function LastIndexOf(s: string, c: char): int {
    if s == "" then -1
    else if s[|s| - 1] == c then |s| - 1
    else LastIndexOf(s[..|s| - 1], c)
  }

  // ---------------------------------------------------------------- name.go

  function NamespacedName(namespace: string, name: string): string {
    namespace + "/" + name
  }

  function PortString(port: BackendPort): string {
    if port.number > 0 then Decimal(port.number) else port.name
  }

  function ClusterName(ingressName: string, backend: ServiceBackend): string {
    ingressName + "_" + backend.name + "_" + PortString(backend.port)
  }

  function DefaultClusterName(defaultBackend: string): string {
    "__defaultCluster__" + "_" + defaultBackend + "_0"
  }

  function ParsePort(clusterName: string): BackendPort {
    var index := LastIndexOf(clusterName, '_');
    if index < 0 then BackendPort("", 0) else
      var portStr := AfterIndex(clusterName, index);
      match Atoi(portStr)
      case Some(i) => BackendPort("", ToInt32(i))
      case None => BackendPort(portStr, 0)
  }

  function AfterIndex(s: string, index: int): string {
    if -1 <= index < |s| then s[index + 1..] else ""
  }

  // ---------------------------------------------------------------- valid names

  /** A name Kubernetes admits for namespaces, ingresses and services, as far as this module needs it. */
  predicate KubeName(s: string) {
    '_' !in s && '/' !in s
  }

  /** A service port name, section 5.1 of RFC 6335. */
  predicate PortName(s: string) {
    && 1 <= |s| <= 15
    && (forall i :: 0 <= i < |s| ==> IsLetter(s[i]) || IsDigit(s[i]) || s[i] == '-')
    && (exists i :: 0 <= i < |s| && IsLetter(s[i]))
    && s[0] != '-' && s[|s| - 1] != '-'
    && (forall i :: 0 <= i < |s| - 1 ==> !(s[i] == '-' && s[i + 1] == '-'))
  }

  /** Exactly one of the two port fields is set, and it is valid. */
  predicate ValidPort(p: BackendPort) {
    (p.name == "" && 0 < p.number <= INT32_MAX) || (p.number == 0 && PortName(p.name))
  }

  predicate ValidBackend(b: ServiceBackend) {
    KubeName(b.name) && ValidPort(b.port)
  }

  // ---------------------------------------------------------------- printing numbers

  lemma {:induction false} DecimalRoundTrip(n: nat)
    ensures Decimal(n) != "" && AllDigits(Decimal(n)) && DigitsValue(Decimal(n)) == n
  {
    if n < 10 {
      assert Decimal(n)[..0] == "";
      assert DigitsValue(Decimal(n)[..0]) == 0;
    } else {
      DecimalRoundTrip(n / 10);
      var s := Decimal(n);
      assert s[..|s| - 1] == Decimal(n / 10);
    }
  }

  lemma AtoiDecimal(n: nat)
    requires n <= INT32_MAX
    ensures Atoi(Decimal(n)) == Some(n)
  {
    DecimalRoundTrip(n);
  }

  /** A port name contains a letter, so it never reads as a number, signed or not. */
  lemma AtoiPortName(s: string)
    requires PortName(s)
    ensures Atoi(s) == None
  {
  }

  // ---------------------------------------------------------------- cutting names apart

  lemma {:induction false} LastIndexAfter(a: string, c: char, b: string)
    requires c !in b
    ensures LastIndexOf(a + [c] + b, c) == |a|
  {
    var s := a + [c] + b;
    if b == "" {
      assert s[|s| - 1] == c;
    } else {
      assert s[|s| - 1] == b[|b| - 1] && b[|b| - 1] in b;
      assert s[..|s| - 1] == a + [c] + b[..|b| - 1];
      LastIndexAfter(a, c, b[..|b| - 1]);
    }
  }

  /** The part of s before the first c, or all of it. */
  function Before(s: string, c: char): string {
    if s == "" || s[0] == c then "" else [s[0]] + Before(s[1..], c)
  }

  lemma {:induction false} BeforeCut(a: string, c: char, b: string)
    requires c !in a
    ensures Before(a + [c] + b, c) == a
  {
    var s := a + [c] + b;
    if a != "" {
      assert s[0] == a[0] && a[0] in a;
      assert s[1..] == a[1..] + [c] + b;
      BeforeCut(a[1..], c, b);
    }
  }

  /** Two strings cut at the first c agree piece by piece. */
  lemma CutFirst(a: string, b: string, a': string, b': string, c: char)
    requires c !in a && c !in a'
    requires a + [c] + b == a' + [c] + b'
    ensures a == a' && b == b'
  {
    BeforeCut(a, c, b);
    BeforeCut(a', c, b');
    assert b == (a + [c] + b)[|a| + 1..];
    assert b' == (a' + [c] + b')[|a'| + 1..];
  }

  lemma NamespacedNameInjective(ns: string, n: string, ns': string, n': string)
    requires KubeName(ns) && KubeName(ns')
    requires NamespacedName(ns, n) == NamespacedName(ns', n')
    ensures ns == ns' && n == n'
  {
    CutFirst(ns, n, ns', n', '/');
  }

  lemma PortStringFacts(p: BackendPort)
    requires ValidPort(p)
    ensures '_' !in PortString(p)
    ensures if p.number > 0 then Atoi(PortString(p)) == Some(p.number) else Atoi(PortString(p)) == None
  {
    if p.number > 0 {
      AtoiDecimal(p.number);
      DecimalRoundTrip(p.number);
    } else {
      AtoiPortName(p.name);
    }
  }

  /** What stands after the last underscore of a name. */
  lemma PortAfter(head: string, port: string)
    requires '_' !in port
    ensures LastIndexOf(head + ['_'] + port, '_') == |head|
    ensures AfterIndex(head + ['_'] + port, |head|) == port
  {
    hide LastIndexOf;
    LastIndexAfter(head, '_', port);
    assert (head + ['_'] + port)[|head| + 1..] == port;
  }

  /** The service path of the cluster configuration recovers exactly the port that was printed. */
  lemma ParsePortInvertsClusterName(ingressName: string, b: ServiceBackend)
    requires ValidPort(b.port)
    ensures ParsePort(ClusterName(ingressName, b)) == b.port
  {
    hide Atoi; hide LastIndexOf; hide AfterIndex; hide Decimal; hide PortName;
    PortStringFacts(b.port);
    PortAfter(ingressName + "_" + b.name, PortString(b.port));
    assert ClusterName(ingressName, b) == ingressName + "_" + b.name + ['_'] + PortString(b.port);
  }

  /** A cluster name determines ingress, service and port. */
  lemma ClusterNameInjective(ns: string, n: string, b: ServiceBackend, ns': string, n': string, b': ServiceBackend)
    requires KubeName(ns) && KubeName(n) && ValidBackend(b)
    requires KubeName(ns') && KubeName(n') && ValidBackend(b')
    requires ClusterName(NamespacedName(ns, n), b) == ClusterName(NamespacedName(ns', n'), b')
    ensures ns == ns' && n == n' && b == b'
  {
    var i, i' := NamespacedName(ns, n), NamespacedName(ns', n');
    var rest, rest' := b.name + "_" + PortString(b.port), b'.name + "_" + PortString(b'.port);
    assert ClusterName(i, b) == i + ['_'] + rest;
    assert ClusterName(i', b') == i' + ['_'] + rest';
    CutFirst(i, rest, i', rest', '_');
    NamespacedNameInjective(ns, n, ns', n');
    CutFirst(b.name, PortString(b.port), b'.name, PortString(b'.port), '_');
    PortStringFacts(b.port);
    PortStringFacts(b'.port);
  }

  /** The ingress a cluster name was printed for. */
  function OwnerOf(cluster: string): string {
    Before(cluster, '_')
  }

  /** Every cluster of an ingress carries the ingress as its owner, and is not the default cluster. */
  lemma OwnerOfClusterName(ns: string, n: string, b: ServiceBackend, defaultBackend: string)
    requires KubeName(ns) && KubeName(n)
    ensures OwnerOf(ClusterName(NamespacedName(ns, n), b)) == NamespacedName(ns, n)
    ensures ClusterName(NamespacedName(ns, n), b) != DefaultClusterName(defaultBackend)
  {
    var i := NamespacedName(ns, n);
    var rest := b.name + "_" + PortString(b.port);
    assert ClusterName(i, b) == i + ['_'] + rest;
    BeforeCut(i, '_', rest);
    assert OwnerOf(DefaultClusterName(defaultBackend)) == "";
  }
}
