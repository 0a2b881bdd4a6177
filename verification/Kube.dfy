/** The parts of the Kubernetes objects that the configuration engine reads. */
module Kube {
  import opened Multimaps

  /** k8s.io/api/networking/v1.ServiceBackendPort; an unset name is "", an unset number is 0. */
  datatype BackendPort = BackendPort(name: string, number: int)

  datatype ServiceBackend = ServiceBackend(name: string, port: BackendPort)

  datatype PathType = Exact | Prefix | ImplementationSpecific

  datatype HttpPath = HttpPath(path: string, pathType: Option<PathType>, backend: ServiceBackend)

  datatype IngressRule = IngressRule(host: string, paths: seq<HttpPath>)

  /** The keys of an annotation map: bfe.ingress.kubernetes.io/router.cookie, router.header, and all others by name. */
  datatype AnnotationKey = RouterCookie | RouterHeader | Other(key: string)

  type Annots = map<AnnotationKey, string>

  type Weights = map<string, int>

  type Balance = map<string, Weights>

  /** The "balance.weight" annotation after JSON decoding. */
  datatype BalanceAnnotation = Absent | Undecodable | Decoded(balance: Balance)

  datatype Ingress = Ingress(namespace: string, name: string, annotations: Annots,
                             weights: BalanceAnnotation, creationTimestamp: int, rules: seq<IngressRule>)

  /** k8s.io/apimachinery/pkg/util/intstr.IntOrString with its zero values spelled out. */
  datatype TargetPort = TargetPort(intVal: int, strVal: string)

  const NO_PORT := TargetPort(0, "")

  datatype ServicePort = ServicePort(name: string, port: int, targetPort: TargetPort)

  datatype Service = Service(namespace: string, name: string, ports: seq<ServicePort>)

  datatype EndpointPort = EndpointPort(name: string, port: int)

  datatype Subset = Subset(addresses: seq<string>, ports: seq<EndpointPort>)

  datatype Endpoints = Endpoints(subsets: seq<Subset>)

  /** A TLS secret; keyPairParses is the verdict of bfe_tls.X509KeyPair on its two blobs. */
  datatype Secret = Secret(namespace: string, name: string, cert: seq<bv8>, key: seq<bv8>, keyPairParses: bool)

  /** All (host, path) pairs of the rules in the order the nested loops visit them. */
  function HostPaths(rules: seq<IngressRule>): seq<(string, HttpPath)> {
    if rules == [] then [] else
      HostPaths(rules[..|rules| - 1]) + PathsOf(rules[|rules| - 1])
  }

  function PathsOf(rule: IngressRule): seq<(string, HttpPath)> {
    seq(|rule.paths|, i requires 0 <= i < |rule.paths| => (rule.host, rule.paths[i]))
  }

  /** One more rule appends exactly its own paths. */
  lemma HostPathsStep(rules: seq<IngressRule>, i: nat)
    requires i < |rules|
    ensures HostPaths(rules[..i + 1]) == HostPaths(rules[..i]) + PathsOf(rules[i])
  {
    assert rules[..i + 1][..i] == rules[..i];
  }

  /** Path j of rule i, under the rule's host, comes after the paths of the rules before and j paths of its own rule. */
  lemma {:induction false} HostPathsAt(rules: seq<IngressRule>, i: nat, j: nat)
    requires i < |rules| && j < |rules[i].paths|
    ensures var n := |HostPaths(rules[..i])| + j;
            n < |HostPaths(rules)| && HostPaths(rules)[n] == (rules[i].host, rules[i].paths[j])
  {
    var front := rules[..|rules| - 1];
    if i < |front| {
      HostPathsAt(front, i, j);
      assert front[..i] == rules[..i];
    }
  }

  /** There are no other pairs. */
  lemma {:induction false} HostPathsSource(rules: seq<IngressRule>, n: nat) returns (i: nat, j: nat)
    requires n < |HostPaths(rules)|
    ensures i < |rules| && j < |rules[i].paths| && n == |HostPaths(rules[..i])| + j
  {
    var front := rules[..|rules| - 1];
    if n < |HostPaths(front)| {
      i, j := HostPathsSource(front, n);
      assert front[..i] == rules[..i];
    } else {
      i, j := |front|, n - |HostPaths(front)|;
    }
  }

}
