/** The state of TLSConfig (internal/bfeConfig/configs/TLSConfig.go), its updates as functions, and what they keep. */
module Tls {
  import opened Multimaps
  import opened Kube
  import opened Names

  type Version = nat

  const DEFAULT_CN_NAME := "example"

  datatype KeyPair = KeyPair(cert: seq<bv8>, key: seq<bv8>)

  /** certConf holds the names of CertConf: the two file paths of an entry are functions of its name. */
  datatype TlsState = TlsState(
    ingress2secret: Multimap<string, string>,
    certConf: set<string>,
    certs: map<string, KeyPair>,
    serverCertVersion: Version,
    tlsRuleVersion: Version,
    clock: Version)

  function InitialState(version: Version): TlsState {
    TlsState(map[], {DEFAULT_CN_NAME}, map[], version, version, version)
  }

  function SetVersion(s: TlsState): TlsState {
    s.(serverCertVersion := s.clock + 1, tlsRuleVersion := s.clock + 1, clock := s.clock + 1)
  }

  function SecretName(secret: Secret): string {
    NamespacedName(secret.namespace, secret.name)
  }

  /** All values of the multimap. */
  function Secrets(m: Multimap<string, string>): set<string> {
    set i, name | i in m && name in m[i] :: name
  }

  function DeleteCert(s: TlsState, name: string): TlsState {
    s.(certConf := s.certConf - {name}, certs := s.certs - {name})
  }

  function UpdateSecret(s: TlsState, secret: Secret): (TlsState, bool) {
    var name := SecretName(secret);
    if name !in Secrets(s.ingress2secret) then (s, true)
    else if !secret.keyPairParses then (s, false)
    else (SetVersion(s.(certConf := s.certConf + {name}, certs := s.certs[name := KeyPair(secret.cert, secret.key)])), true)
  }

  function DeleteSecret(s: TlsState, namespace: string, name: string): TlsState {
    var target := NamespacedName(namespace, name);
    if target !in Secrets(s.ingress2secret) then s else SetVersion(DeleteCert(s, target))
  }

  function Associate(s: TlsState, ingressName: string, secrets: seq<Secret>): TlsState {
    if secrets == [] then s else
      var s1 := Associate(s, ingressName, secrets[..|secrets| - 1]);
      s1.(ingress2secret := Put(s1.ingress2secret, ingressName, SecretName(secrets[|secrets| - 1])))
  }

  /** The second loop of UpdateIngress, which stops at the first bad key pair. */
  function UpdateSecrets(s: TlsState, secrets: seq<Secret>): (TlsState, bool) {
    if secrets == [] then (s, true) else
      var (s1, ok) := UpdateSecrets(s, secrets[..|secrets| - 1]);
      if !ok then (s1, false) else UpdateSecret(s1, secrets[|secrets| - 1])
  }

  function UpdateIngress(s: TlsState, namespace: string, name: string, secrets: seq<Secret>): (TlsState, bool) {
    UpdateSecrets(Associate(s, NamespacedName(namespace, name), secrets), secrets)
  }

  /** Every cert that no ingress refers to is deleted; the version moves when there was one. */
  function Collect(s: TlsState): TlsState {
    var unused := s.certs.Keys - Secrets(s.ingress2secret);
    if unused == {} then s else SetVersion(s.(certConf := s.certConf - unused, certs := s.certs - unused))
  }

  function DeleteIngress(s: TlsState, namespace: string, name: string): TlsState {
    var ingressName := NamespacedName(namespace, name);
    if ingressName !in s.ingress2secret then s
    else Collect(s.(ingress2secret := RemoveKey(s.ingress2secret, ingressName)))
  }

  // ---------------------------------------------------------------- what every event keeps

  /** The configured names are the certs and the default; every cert is referenced by some ingress. */
  ghost predicate Inv(s: TlsState) {
    && s.certConf == s.certs.Keys + {DEFAULT_CN_NAME}
    && s.certs.Keys <= Secrets(s.ingress2secret)
    && forall n :: n in Secrets(s.ingress2secret) ==> '/' in n
  }

  lemma DefaultIsNoSecret(namespace: string, name: string)
    ensures '/' in NamespacedName(namespace, name) && '/' !in DEFAULT_CN_NAME
  {
  }

  /** The default entry is never a cert, so it is never deleted. */
  lemma DefaultStays(s: TlsState)
    requires Inv(s)
    ensures DEFAULT_CN_NAME in s.certConf && DEFAULT_CN_NAME !in s.certs
  {
  }

  lemma SecretsPut(m: Multimap<string, string>, i: string, n: string)
    ensures Secrets(Put(m, i, n)) == Secrets(m) + {n}
  {
    forall x
      ensures x in Secrets(Put(m, i, n)) <==> x in Secrets(m) + {n}
    {
      if x in Secrets(m) {
        var j :| j in m && x in m[j];
        PutHas(m, i, n, j, x);
      }
      if x in Secrets(Put(m, i, n)) {
        var j :| j in Put(m, i, n) && x in Put(m, i, n)[j];
        PutHas(m, i, n, j, x);
      }
      PutHas(m, i, n, i, n);
    }
  }

  lemma UpdateSecretKeepsInv(s: TlsState, secret: Secret)
    requires Inv(s)
    ensures Inv(UpdateSecret(s, secret).0)
  {
  }

  lemma DeleteSecretKeepsInv(s: TlsState, namespace: string, name: string)
    requires Inv(s)
    ensures Inv(DeleteSecret(s, namespace, name))
  {
  }

  lemma {:induction false} AssociateKeepsInv(s: TlsState, ingressName: string, secrets: seq<Secret>)
    requires Inv(s)
    ensures Inv(Associate(s, ingressName, secrets))
  {
    if secrets != [] {
      AssociateKeepsInv(s, ingressName, secrets[..|secrets| - 1]);
      var last := secrets[|secrets| - 1];
      SecretsPut(Associate(s, ingressName, secrets[..|secrets| - 1]).ingress2secret, ingressName, SecretName(last));
      DefaultIsNoSecret(last.namespace, last.name);
      hide Secrets; hide NamespacedName; hide Put;
    }
  }

  lemma {:induction false} UpdateSecretsKeepInv(s: TlsState, secrets: seq<Secret>)
    requires Inv(s)
    ensures Inv(UpdateSecrets(s, secrets).0)
  {
    if secrets != [] {
      UpdateSecretsKeepInv(s, secrets[..|secrets| - 1]);
      UpdateSecretKeepsInv(UpdateSecrets(s, secrets[..|secrets| - 1]).0, secrets[|secrets| - 1]);
      hide Inv; hide UpdateSecret;
    }
  }

  lemma UpdateIngressKeepsInv(s: TlsState, namespace: string, name: string, secrets: seq<Secret>)
    requires Inv(s)
    ensures Inv(UpdateIngress(s, namespace, name, secrets).0)
  {
    AssociateKeepsInv(s, NamespacedName(namespace, name), secrets);
    UpdateSecretsKeepInv(Associate(s, NamespacedName(namespace, name), secrets), secrets);
  }

  lemma SecretsRemove(m: Multimap<string, string>, i: string, n: string)
    ensures n in Secrets(RemoveKey(m, i)) <==> exists j :: j != i && Has(m, j, n)
  {
    if j :| j != i && Has(m, j, n) {
      assert j in RemoveKey(m, i) && n in RemoveKey(m, i)[j];
    }
    if n in Secrets(RemoveKey(m, i)) {
      var j :| j in RemoveKey(m, i) && n in RemoveKey(m, i)[j];
      assert j != i && Has(m, j, n);
    }
  }

  lemma DeleteIngressKeepsInv(s: TlsState, namespace: string, name: string)
    requires Inv(s)
    ensures Inv(DeleteIngress(s, namespace, name))
  {
  }

  /** Deleting an ingress that has secrets keeps exactly the certs another ingress refers to, unchanged, and the default. */
  lemma DeleteIngressIsExact(s: TlsState, namespace: string, name: string)
    requires Inv(s) && NamespacedName(namespace, name) in s.ingress2secret
    ensures var i := NamespacedName(namespace, name); var s' := DeleteIngress(s, namespace, name);
            && i !in s'.ingress2secret
            && (forall j :: j != i ==> Values(s'.ingress2secret, j) == Values(s.ingress2secret, j))
            && (forall n :: n in s'.certs <==> n in s.certs && exists j :: j != i && Has(s.ingress2secret, j, n))
            && (forall n :: n in s'.certs ==> s'.certs[n] == s.certs[n])
            && (forall n :: n in s'.certConf <==> n == DEFAULT_CN_NAME || n in s'.certs)
  {
    hide Secrets; hide NamespacedName;
    var i := NamespacedName(namespace, name);
    DefaultStays(s);
    DeleteIngressKeepsInv(s, namespace, name);
    forall n
      ensures n in Secrets(RemoveKey(s.ingress2secret, i)) <==> exists j :: j != i && Has(s.ingress2secret, j, n)
    {
      SecretsRemove(s.ingress2secret, i, n);
    }
  }

  // ---------------------------------------------------------------- runs

  datatype Event =
    | IngressUpdated(namespace: string, name: string, secrets: seq<Secret>)
    | IngressDeleted(namespace: string, name: string)
    | SecretUpdated(secret: Secret)
    | SecretDeleted(namespace: string, name: string)

  function Step(s: TlsState, e: Event): TlsState {
    match e
    case IngressUpdated(ns, n, secrets) => UpdateIngress(s, ns, n, secrets).0
    case IngressDeleted(ns, n) => DeleteIngress(s, ns, n)
    case SecretUpdated(secret) => UpdateSecret(s, secret).0
    case SecretDeleted(ns, n) => DeleteSecret(s, ns, n)
  }

  function RunFrom(s: TlsState, events: seq<Event>): TlsState {
    if events == [] then s else Step(RunFrom(s, events[..|events| - 1]), events[|events| - 1])
  }

  /** After every run: CertConf names the certs and the default, and no cert is unreferenced. */
  lemma {:induction false} EveryRunKeepsInv(version: Version, events: seq<Event>)
    ensures Inv(RunFrom(InitialState(version), events))
  {
    if events != [] {
      var s := RunFrom(InitialState(version), events[..|events| - 1]);
      EveryRunKeepsInv(version, events[..|events| - 1]);
      hide Inv; hide UpdateIngress; hide DeleteIngress; hide UpdateSecret; hide DeleteSecret;
      match events[|events| - 1]
      case IngressUpdated(ns, n, secrets) => UpdateIngressKeepsInv(s, ns, n, secrets);
      case IngressDeleted(ns, n) => DeleteIngressKeepsInv(s, ns, n);
      case SecretUpdated(secret) => UpdateSecretKeepsInv(s, secret);
      case SecretDeleted(ns, n) => DeleteSecretKeepsInv(s, ns, n);
    }
  }
}
