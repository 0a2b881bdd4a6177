/** Which certificate and key each configured secret has: over all runs those of the last secret of that name that was stored. */
module StoredSecrets {
  import opened Multimaps
  import opened Kube
  import opened Names
  import opened Tls

  // ---------------------------------------------------------------- one secret

  /** name now has the certificate and the key of the secret, and every other entry is as it was. */
  ghost predicate StoredOnly(s: TlsState, s': TlsState, name: string, secret: Secret) {
    && s'.certs.Keys == s.certs.Keys + {name} && s'.certConf == s.certConf + {name}
    && s'.certs[name].cert == secret.cert && s'.certs[name].key == secret.key
    && forall n :: n in s.certs && n != name ==> s'.certs[n] == s.certs[n]
  }

  ghost predicate SameCerts(s: TlsState, s': TlsState) {
    s'.certs == s.certs && s'.certConf == s.certConf
  }

  /** An ingress refers to the secret of this name. */
  ghost predicate Referenced(s: TlsState, name: string) {
    exists i :: Has(s.ingress2secret, i, name)
  }

  lemma ReferencedExactly(s: TlsState, name: string)
    ensures name in Secrets(s.ingress2secret) <==> Referenced(s, name)
  {
    if i :| Has(s.ingress2secret, i, name) {
      assert i in s.ingress2secret && name in s.ingress2secret[i];
    }
    if name in Secrets(s.ingress2secret) {
      var i :| i in s.ingress2secret && name in s.ingress2secret[i];
      assert Has(s.ingress2secret, i, name);
    }
  }

  /** UpdateSecret stores a referenced secret whose pair parses, certificate as certificate and key as key; it fails exactly on a
      referenced one whose pair does not, and else changes nothing. */
  lemma UpdateSecretExactly(s: TlsState, secret: Secret)
    ensures var (s', ok) := UpdateSecret(s, secret); var name := secret.namespace + "/" + secret.name;
            && (ok <==> !Referenced(s, name) || secret.keyPairParses)
            && (if ok && Referenced(s, name) then StoredOnly(s, s', name, secret) else SameCerts(s, s'))
            && s'.ingress2secret == s.ingress2secret
  {
    hide Secrets; hide Referenced;
    ReferencedExactly(s, SecretName(secret));
  }

  /** DeleteSecret takes a referenced secret out of both, and nothing else. */
  lemma DeleteSecretExactly(s: TlsState, namespace: string, name: string)
    ensures var s', n := DeleteSecret(s, namespace, name), namespace + "/" + name;
            && s'.ingress2secret == s.ingress2secret
            && if Referenced(s, n) then
                 && n !in s'.certs && n !in s'.certConf
                 && s'.certs.Keys == s.certs.Keys - {n} && s'.certConf == s.certConf - {n}
                 && forall m :: m in s'.certs ==> s'.certs[m] == s.certs[m]
               else SameCerts(s, s')
  {
    hide Secrets; hide Referenced;
    ReferencedExactly(s, NamespacedName(namespace, name));
  }

  // ---------------------------------------------------------------- an ingress's secrets

  function NameOf(secret: Secret): string { secret.namespace + "/" + secret.name }

  /** How many secrets come before the first whose pair does not parse. */
  function FirstBad(secrets: seq<Secret>): (n: nat)
    ensures n <= |secrets| && (n < |secrets| ==> !secrets[n].keyPairParses)
    ensures forall j :: 0 <= j < n ==> secrets[j].keyPairParses
  {
    if secrets == [] then 0 else
      var front := secrets[..|secrets| - 1];
      assert forall j :: 0 <= j < |front| ==> front[j] == secrets[j];
      var n := FirstBad(front);
      if n < |front| then n else if secrets[|secrets| - 1].keyPairParses then |secrets| else |front|
  }

  /** Secret i is the last of the name. */
  ghost predicate LastAt(secrets: seq<Secret>, name: string, i: int) {
    0 <= i < |secrets| && NameOf(secrets[i]) == name && forall j :: i < j < |secrets| ==> NameOf(secrets[j]) != name
  }

  /** The last secret of the name. */
  function LastOf(secrets: seq<Secret>, name: string): (r: Option<Secret>)
    ensures r.Some? ==> exists i :: LastAt(secrets, name, i) && secrets[i] == r.value
    ensures r.None? ==> forall j :: 0 <= j < |secrets| ==> NameOf(secrets[j]) != name
  {
    if secrets == [] then None else
      var front, last := secrets[..|secrets| - 1], secrets[|secrets| - 1];
      assert forall j :: 0 <= j < |front| ==> front[j] == secrets[j];
      if NameOf(last) == name then
        assert LastAt(secrets, name, |secrets| - 1);
        Some(last)
      else
        var r := LastOf(front, name);
        assert forall i :: LastAt(front, name, i) ==> LastAt(secrets, name, i);
        r
  }

  /** name has the pair of the given secret, or what it had before when there is none. */
  predicate HasPair(s: TlsState, s': TlsState, name: string, stored: Option<Secret>) {
    match stored
    case Some(secret) => name in s'.certs && s'.certs[name].cert == secret.cert && s'.certs[name].key == secret.key
    case None => (name in s'.certs <==> name in s.certs) && (name in s.certs ==> s'.certs[name] == s.certs[name])
  }

  lemma LastOfMore(secrets: seq<Secret>, last: Secret, name: string)
    ensures LastOf(secrets + [last], name) == if NameOf(last) == name then Some(last) else LastOf(secrets, name)
  {
    assert (secrets + [last])[..|secrets|] == secrets;
  }

  /** The second loop of UpdateIngress, on secrets that are all referenced: the good ones before the first bad one are stored. */
  lemma {:induction false} UpdateSecretsExactly(s: TlsState, secrets: seq<Secret>, name: string)
    requires forall k :: 0 <= k < |secrets| ==> Referenced(s, NameOf(secrets[k]))
    ensures var (s', ok) := UpdateSecrets(s, secrets);
            && (ok <==> FirstBad(secrets) == |secrets|)
            && s'.ingress2secret == s.ingress2secret
            && HasPair(s, s', name, LastOf(secrets[..FirstBad(secrets)], name))
  {
    hide Secrets; hide UpdateSecret; hide Referenced; hide NamespacedName; hide LastOf; hide LastAt;
    if secrets == [] {
      NothingStored(name);
    } else {
      var front, last := secrets[..|secrets| - 1], secrets[|secrets| - 1];
      UpdateSecretsExactly(s, front, name);
      var (s1, ok1) := UpdateSecrets(s, front);
      UpdateSecretExactly(s1, last);
      SameReferences(s, s1, NameOf(last));
      if ok1 && last.keyPairParses {
        LastOfMore(front, last, name);
        assert secrets[..FirstBad(secrets)] == front + [last];
        assert front[..FirstBad(front)] == front;
      } else {
        assert secrets[..FirstBad(secrets)] == front[..FirstBad(front)];
      }
    }
  }

  lemma NothingStored(name: string)
    ensures LastOf([], name) == None
  {
  }

  lemma SameReferences(s: TlsState, s': TlsState, name: string)
    requires s'.ingress2secret == s.ingress2secret
    ensures Referenced(s, name) <==> Referenced(s', name)
  {
  }

  predicate AnyNamed(secrets: seq<Secret>, name: string) {
    exists k :: 0 <= k < |secrets| && NameOf(secrets[k]) == name
  }

  lemma NoneNamed()
    ensures forall n :: !AnyNamed([], n)
  {
  }

  lemma AnyNamedMore(secrets: seq<Secret>, last: Secret, name: string)
    ensures AnyNamed(secrets + [last], name) <==> NameOf(last) == name || AnyNamed(secrets, name)
  {
    hide NameOf;
    var all := secrets + [last];
    if NameOf(last) == name {
      assert all[|secrets|] == last;
    }
    if k :| 0 <= k < |secrets| && NameOf(secrets[k]) == name {
      assert all[k] == secrets[k];
    }
  }

  lemma {:induction false} Associated(s: TlsState, ingressName: string, secrets: seq<Secret>)
    ensures var s' := Associate(s, ingressName, secrets);
            && SameCerts(s, s')
            && forall i, n :: Has(s'.ingress2secret, i, n) <==>
                 Has(s.ingress2secret, i, n) || (i == ingressName && AnyNamed(secrets, n))
  {
    hide Multimaps.Put; hide Has; hide AnyNamed;
    NoneNamed();
    if secrets != [] {
      var front, last := secrets[..|secrets| - 1], secrets[|secrets| - 1];
      Associated(s, ingressName, front);
      forall i, n
        ensures Has(Associate(s, ingressName, secrets).ingress2secret, i, n) <==>
                Has(Associate(s, ingressName, front).ingress2secret, i, n) || (i == ingressName && n == NameOf(last))
      {
        PutHas(Associate(s, ingressName, front).ingress2secret, ingressName, NameOf(last), i, n);
      }
      assert secrets == front + [last];
      forall n
        ensures AnyNamed(secrets, n) <==> n == NameOf(last) || AnyNamed(front, n)
      {
        AnyNamedMore(front, last, n);
      }
    }
  }

  /** UpdateIngress associates all the secrets, and stores those before the first bad pair. */
  lemma UpdateIngressExactly(s: TlsState, namespace: string, ingress: string, secrets: seq<Secret>, name: string)
    ensures var (s', ok) := UpdateIngress(s, namespace, ingress, secrets);
            && (ok <==> forall j :: 0 <= j < |secrets| ==> secrets[j].keyPairParses)
            && HasPair(s, s', name, LastOf(secrets[..FirstBad(secrets)], name))
            && forall i, n :: Has(s'.ingress2secret, i, n) <==>
                 Has(s.ingress2secret, i, n) || (i == namespace + "/" + ingress && AnyNamed(secrets, n))
  {
    hide Associate; hide UpdateSecrets; hide LastOf; hide LastAt; hide Has;
    var s1 := Associate(s, NamespacedName(namespace, ingress), secrets);
    Associated(s, NamespacedName(namespace, ingress), secrets);
    forall k | 0 <= k < |secrets|
      ensures Referenced(s1, NameOf(secrets[k]))
    {
      assert Has(s1.ingress2secret, NamespacedName(namespace, ingress), NameOf(secrets[k]));
    }
    UpdateSecretsExactly(s1, secrets, name);
  }

  // ---------------------------------------------------------------- runs

  /** The secret whose pair is configured under the name after a run: the last one stored, unless a deletion of the secret, or of
      the last ingress that refers to it, has come since. */
  ghost function Configured(version: Version, events: seq<Event>, name: string): Option<Secret> {
    if events == [] then None else
      var front := events[..|events| - 1];
      var s, before := RunFrom(InitialState(version), front), Configured(version, front, name);
      match events[|events| - 1]
      case SecretUpdated(secret) => if NameOf(secret) == name && Referenced(s, name) && secret.keyPairParses then Some(secret) else before
      case IngressUpdated(_, _, secrets) =>
        var stored := LastOf(secrets[..FirstBad(secrets)], name);
        if stored.Some? then stored else before
      case SecretDeleted(ns, n) => if ns + "/" + n == name then None else before
      case IngressDeleted(ns, n) => if ReferencedBeside(s, ns + "/" + n, name) then before else None
  }

  ghost predicate ReferencedBeside(s: TlsState, ingress: string, name: string) {
    exists i :: i != ingress && Has(s.ingress2secret, i, name)
  }

  /** The name is configured exactly when there is such a secret, with its certificate and its key. */
  ghost predicate PairOf(s: TlsState, name: string, secret: Option<Secret>) {
    && (name in s.certs <==> secret.Some?)
    && (name in s.certs ==> s.certs[name].cert == secret.value.cert && s.certs[name].key == secret.value.key)
  }

  lemma CertsAreReferenced(s: TlsState, name: string)
    requires Inv(s) && name in s.certs
    ensures Referenced(s, name)
  {
    ReferencedExactly(s, name);
  }

  lemma DeletedIngress(s: TlsState, namespace: string, ingress: string, name: string)
    requires Inv(s)
    ensures var s' := DeleteIngress(s, namespace, ingress);
            && (name in s'.certs <==> name in s.certs && ReferencedBeside(s, namespace + "/" + ingress, name))
            && (name in s'.certs ==> s'.certs[name] == s.certs[name])
  {
    hide Inv; hide Collect; hide Secrets;
    if namespace + "/" + ingress in s.ingress2secret {
      DeleteIngressIsExact(s, namespace, ingress);
    } else if name in s.certs {
      CertsAreReferenced(s, name);
    }
  }

  lemma {:induction false} EveryRunConfigures(version: Version, events: seq<Event>, name: string)
    ensures PairOf(RunFrom(InitialState(version), events), name, Configured(version, events, name))
  {
    hide Inv; hide UpdateIngress; hide DeleteIngress; hide UpdateSecret; hide DeleteSecret; hide LastOf; hide Referenced; hide ReferencedBeside;
    if events != [] {
      var front := events[..|events| - 1];
      var s := RunFrom(InitialState(version), front);
      EveryRunConfigures(version, front, name);
      EveryRunKeepsInv(version, front);
      match events[|events| - 1]
      case SecretUpdated(secret) => UpdateSecretExactly(s, secret);
      case IngressUpdated(ns, n, secrets) => UpdateIngressExactly(s, ns, n, secrets, name);
      case SecretDeleted(ns, n) =>
        DeleteSecretExactly(s, ns, n);
        if name in s.certs {
          CertsAreReferenced(s, name);
        }
      case IngressDeleted(ns, n) => DeletedIngress(s, ns, n, name);
    }
  }
}
