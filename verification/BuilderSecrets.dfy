/** The certificates of ConfigBuilder over whole runs: which secrets reach TLSConfig, and what BFE is given for them. */
module BuilderSecrets {
  import opened Reloads
  import opened Builder
  import opened ReloadContents
  import opened StoredSecrets
  import BuilderRuns
  import Tls

  /** The step as TLSConfig sees it: an update of an ingress only after the server data and the clusters have taken it. */
  ghost function TlsOps(x: State, defaultBackend: string, e: Event): seq<Tls.Event> {
    match e
    case IngressUpdated(u, c) =>
      var o := UpdateIngress(x, defaultBackend, u, c).1;
      if o == Done || o == TlsFailed then [Tls.IngressUpdated(u.ingress.namespace, u.ingress.name, u.secrets)] else []
    case IngressDeleted(ns, n, _, _) => [Tls.IngressDeleted(ns, n)]
    case SecretUpdated(secret) => [Tls.SecretUpdated(secret)]
    case SecretDeleted(ns, n, _) => [Tls.SecretDeleted(ns, n)]
    case _ => []
  }

  ghost function TlsHistory(x: State, defaultBackend: string, events: seq<Event>): seq<Tls.Event> {
    if events == [] then [] else
      var front := events[..|events| - 1];
      TlsHistory(x, defaultBackend, front) + TlsOps(RunFrom(x, defaultBackend, front), defaultBackend, events[|events| - 1])
  }

  lemma OneMore(s: Tls.TlsState, events: seq<Tls.Event>, e: Tls.Event)
    ensures Tls.RunFrom(s, events + [e]) == Tls.Step(Tls.RunFrom(s, events), e)
  {
    hide Tls.Step;
    assert (events + [e])[..|events|] == events;
  }

  lemma StepOfTls(x: State, defaultBackend: string, e: Event)
    ensures var ops := TlsOps(x, defaultBackend, e);
            if ops == [] then Step(x, defaultBackend, e).tls == x.tls
            else |ops| == 1 && Step(x, defaultBackend, e).tls == Tls.Step(x.tls, ops[0])
  {
    hide UpdateServer; hide UpdateCluster; hide Tls.UpdateIngress; hide Tls.DeleteIngress; hide Tls.UpdateSecret; hide Tls.DeleteSecret;
  }

  lemma {:induction false} EveryRunOfTls(version: Version, env: Env, defaultBackend: string, events: seq<Event>)
    ensures var start := InitialState(version, env);
            RunFrom(start, defaultBackend, events).tls == Tls.RunFrom(Tls.InitialState(version), TlsHistory(start, defaultBackend, events))
  {
    hide Step; hide TlsOps; hide Tls.Step;
    var start := InitialState(version, env);
    if events != [] {
      var front, last := events[..|events| - 1], events[|events| - 1];
      var x := RunFrom(start, defaultBackend, front);
      var past, ops := TlsHistory(start, defaultBackend, front), TlsOps(x, defaultBackend, last);
      EveryRunOfTls(version, env, defaultBackend, front);
      StepOfTls(x, defaultBackend, last);
      if ops == [] {
        assert past + ops == past;
      } else {
        OneMore(Tls.InitialState(version), past, ops[0]);
        assert past + ops == past + [ops[0]];
      }
    }
  }

  /** After any possible run that misses no update, and a successful reload: of each secret that is configured, BFE has loaded the
      certificate and the key of the last one stored under its name, each from its own file. */
  lemma EveryReloadGivesLastPair(version: Version, env: Env, defaultBackend: string, events: seq<Event>, r: Reloading, name: string)
    requires version > 0
    requires var start := InitialState(version, env); PossibleRun(start, defaultBackend, events) && NoticedRun(start, defaultBackend, events)
    requires ReloadPossible(RunFrom(InitialState(version, env), defaultBackend, events), r) && Succeeds(r)
    ensures var start := InitialState(version, env);
            var secret := StoredSecrets.Configured(version, TlsHistory(start, defaultBackend, events), name);
            var x := Reload(RunFrom(start, defaultBackend, events), r);
            && (name in x.tls.certs <==> secret.Some?)
            && (secret.Some? ==> InPlace(x.env, CertFile(name), Blob(secret.value.cert)) && InPlace(x.env, KeyFile(name), Blob(secret.value.key)))
  {
    hide RunFrom; hide PossibleRun; hide NoticedRun; hide ReloadPossible; hide Succeeds; hide StoredSecrets.Configured; hide TlsHistory; hide Reload;
    hide Tls.RunFrom; hide InPlace;
    var start := InitialState(version, env);
    EveryRunOfTls(version, env, defaultBackend, events);
    EveryRunConfigures(version, TlsHistory(start, defaultBackend, events), name);
    BuilderRuns.SuccessfulReloadWritesAll(version, env, defaultBackend, events, r);
    ReloadKeepsTls(RunFrom(start, defaultBackend, events), r);
  }

  lemma ReloadKeepsTls(x: State, r: Reloading)
    ensures Reload(x, r).tls == x.tls
  {
  }
}
