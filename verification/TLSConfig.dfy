/** TLSConfig (internal/bfeConfig/configs/TLSConfig.go) as the source writes it, proved against the functions of Tls. */
module TLSConfig {
  import opened Multimaps
  import opened Kube
  import opened Names
  import opened Tls
  import opened Reloads
  import opened Documents

  class TLSConfig {
    // what BFE is known to run
    var serverCertVersion: Reloads.Version
    var tlsRuleVersion: Reloads.Version

    var ingress2secret: Multimap<string, string>

    var certConf: set<string>
    var serverCertConfVersion: Reloads.Version
    var tlsRuleConfVersion: Reloads.Version
    var certs: map<string, KeyPair>

    var clock: Reloads.Version

    ghost function State(): TlsState
      reads this
    {
      TlsState(ingress2secret, certConf, certs, serverCertConfVersion, tlsRuleConfVersion, clock)
    }

    ghost function Active(): TlsActive
      reads `serverCertVersion, `tlsRuleVersion
    {
      TlsActive(serverCertVersion, tlsRuleVersion)
    }

    constructor (version: Reloads.Version)
      ensures State() == Tls.InitialState(version) && Active() == TlsActive(0, 0)
    {
      serverCertVersion, tlsRuleVersion := 0, 0;
      ingress2secret := map[];
      certConf, serverCertConfVersion := {DEFAULT_CN_NAME}, version;
      tlsRuleConfVersion := version;
      certs := map[];
      clock := version;
    }

    method SetVersion()
      modifies `serverCertConfVersion, `tlsRuleConfVersion, `clock
      ensures State() == Tls.SetVersion(old(State()))
    {
      clock := clock + 1;
      serverCertConfVersion := clock;
      tlsRuleConfVersion := clock;
    }

    /** ok is false when the source returns the key pair's error. */
    method UpdateIngress(namespace: string, name: string, secrets: seq<Secret>) returns (ok: bool)
      modifies `ingress2secret, `certConf, `serverCertConfVersion, `tlsRuleConfVersion, `certs, `clock
      ensures (State(), ok) == Tls.UpdateIngress(old(State()), namespace, name, secrets)
    {
      var ingressName := NamespacedName(namespace, name);
      ghost var s := State();
      hide Tls.UpdateSecret; hide NamespacedName; hide Put;
      for i := 0 to |secrets|
        invariant State() == Associate(s, ingressName, secrets[..i])
      {
        assert secrets[..i + 1][..i] == secrets[..i];
        ingress2secret := Put(ingress2secret, ingressName, NamespacedName(secrets[i].namespace, secrets[i].name));
      }
      assert secrets[..|secrets|] == secrets;
      ghost var associated := State();
      hide Associate;
      for i := 0 to |secrets|
        invariant (State(), true) == UpdateSecrets(associated, secrets[..i])
      {
        assert secrets[..i + 1][..i] == secrets[..i];
        ok := UpdateSecret(secrets[i]);
        if !ok {
          OneBadSecret(associated, secrets, i + 1);
          return false;
        }
      }
      assert secrets[..|secrets|] == secrets;
      return true;
    }

    method DeleteIngress(namespace: string, name: string, bfe: Bfe)
      modifies `ingress2secret, `certConf, `serverCertConfVersion, `tlsRuleConfVersion, `certs, `clock, bfe
      ensures State() == Tls.DeleteIngress(old(State()), namespace, name)
      ensures CertFilesDeleted(old(State()).certConf - State().certConf, old(bfe.State()), bfe.State())
    {
      hide Secrets;
      var ingressName := NamespacedName(namespace, name);
      if ingressName !in ingress2secret {
        return;
      }
      ingress2secret := RemoveKey(ingress2secret, ingressName);
      ghost var s, env := State(), bfe.State();
      var updated := false;
      var secrets := Secrets(ingress2secret);
      var rest := certs.Keys;
      ghost var deleted: set<string> := {};
      while rest != {}
        invariant rest <= s.certs.Keys && deleted == (s.certs.Keys - rest) - secrets
        invariant updated <==> deleted != {}
        invariant State() == s.(certConf := s.certConf - deleted, certs := s.certs - deleted)
        invariant CertFilesDeleted(s.certConf - certConf, env, bfe.State())
      {
        var cert :| cert in rest;
        rest := rest - {cert};
        var found := IsReferenced(cert, secrets);
        if !found {
          ghost var before, touched := State(), bfe.State();
          DeleteCert(cert, bfe);
          MoreDeleted(s.certConf, before.certConf, certConf, env, touched, bfe.State());
          deleted := deleted + {cert};
          updated := true;
        }
      }
      assert deleted == s.certs.Keys - secrets;
      if updated {
        SetVersion();
      }
    }

    /** DeleteIngress's inner loop. */
    static method IsReferenced(name: string, secrets: set<string>) returns (found: bool)
      ensures found <==> name in secrets
    {
      found := false;
      var rest := secrets;
      while rest != {}
        invariant rest <= secrets && (found <==> name in secrets - rest)
      {
        var secret :| secret in rest;
        rest := rest - {secret};
        if secret == name {
          found := true;
        }
      }
    }

    method DeleteCert(name: string, bfe: Bfe)
      modifies `certConf, `certs, bfe
      ensures State() == Tls.DeleteCert(old(State()), name)
      ensures CertFilesDeleted(old(certConf) - certConf, old(bfe.State()), bfe.State())
    {
      if name in certConf {
        bfe.DeleteFile(KeyFile(name));
        bfe.DeleteFile(CertFile(name));
        assert name in old(certConf) - (certConf - {name});
      }
      certConf := certConf - {name};
      certs := certs - {name};
      assert forall n :: n in old(certConf) - certConf <==> n == name && name in old(certConf);
    }

    method UpdateSecret(secret: Secret) returns (ok: bool)
      modifies `certConf, `serverCertConfVersion, `tlsRuleConfVersion, `certs, `clock
      ensures (State(), ok) == Tls.UpdateSecret(old(State()), secret)
    {
      var name := NamespacedName(secret.namespace, secret.name);
      if name !in Secrets(ingress2secret) {
        return true;
      }
      if !secret.keyPairParses {
        return false;
      }
      certConf := certConf + {name};
      certs := certs[name := KeyPair(secret.cert, secret.key)];
      SetVersion();
      return true;
    }

    method DeleteSecret(namespace: string, name: string, bfe: Bfe)
      modifies `certConf, `serverCertConfVersion, `tlsRuleConfVersion, `certs, `clock, bfe
      ensures State() == Tls.DeleteSecret(old(State()), namespace, name)
      ensures CertFilesDeleted(old(State()).certConf - State().certConf, old(bfe.State()), bfe.State())
    {
      var target := NamespacedName(namespace, name);
      if target !in Secrets(ingress2secret) {
        return;
      }
      DeleteCert(target, bfe);
      SetVersion();
    }

    method Reload(bfe: Bfe) returns (ok: bool)
      modifies `serverCertVersion, `tlsRuleVersion, bfe
      ensures State() == old(State())
      ensures Reloaded(TlsDocs(State(), old(Active())), old(bfe.State()), bfe.State(), ok)
      ensures Active() == if ok then TlsActivated(State()) else old(Active())
    {
      assert State().certConf == certConf;
      hide *;
      ghost var docs, env := TlsDocs(State(), Active()), bfe.State();
      TlsFiles(State(), Active());
      var reload;
      ok, reload := DumpFiles(bfe);
      if !ok {
        return false;
      }
      ghost var dumped := bfe.State();
      if reload {
        ok := bfe.ReloadBfe(CertFileNames(certConf) + {TlsRuleData});
        ReloadEnds(docs, 2, env, dumped, bfe.State(), ok);
        if !ok {
          return false;
        }
        Activate();
      } else {
        NothingToReload(docs, 2, env, dumped);
        CleanIsActive(State(), Active());
      }
      return true;
    }

    /** Dumps the files whose version is not the active one; reload says whether there was one. */
    method DumpFiles(bfe: Bfe) returns (ok: bool, reload: bool)
      modifies bfe
      ensures |TlsDocs(State(), Active())| == 2
      ensures if ok then Dumped(TlsDocs(State(), Active()), 2, old(bfe.State()), bfe.State(), reload)
              else Reloaded(TlsDocs(State(), Active()), old(bfe.State()), bfe.State(), false)
    {
      hide Dumped; hide Apart; hide AllFiles; hide Reloaded; hide Bfe.State; hide CertFiles;
      ghost var docs, env := TlsDocs(State(), Active()), bfe.State();
      TlsFiles(State(), Active());
      DumpStarts(docs, env);
      ok, reload := true, false;
      if serverCertConfVersion != serverCertVersion {
        ok := DumpCerts(bfe);
        DumpsAll(docs, 0, env, env, bfe.State(), false, ok);
        reload := true;
      } else {
        SkipsOne(docs, 0, env, env, false);
      }
      if ok {
        ok, reload := bfe.DumpPart(docs, 1, env, reload, tlsRuleConfVersion != tlsRuleVersion, TlsRuleData, TlsRule(tlsRuleConfVersion));
      }
    }

    /** The server certificate part of Reload: its configuration and two files for each secret. */
    method DumpCerts(bfe: Bfe) returns (ok: bool)
      modifies bfe
      ensures bfe.State().loaded == old(bfe.State()).loaded
      ensures OthersKept(CertFiles(State()), old(bfe.State()).disk, bfe.State().disk)
      ensures ok ==> Dumps(CertFiles(State()), {}, bfe.State().disk)
    {
      hide CertFiles; hide OthersKept; hide Dumps;
      ghost var files, before := CertFiles(State()), bfe.disk;
      ok := bfe.DumpFile(ServerCertData, ServerCert(serverCertConfVersion, certConf));
      ConfDumped(State(), before, bfe.disk, ok);
      if !ok {
        return false;
      }
      var rest := certConf;
      while rest != {}
        invariant rest <= certConf && bfe.loaded == old(bfe.loaded)
        invariant OthersKept(files, before, bfe.disk) && Dumps(files, rest, bfe.disk)
      {
        var name :| name in rest;
        ghost var todo, disk := rest, bfe.disk;
        rest := rest - {name};
        if name == DEFAULT_CN_NAME {
          DefaultHasNoFiles(State(), todo, disk);
          continue;
        }
        var pair := if name in certs then certs[name] else KeyPair([], []);
        ok := bfe.DumpFile(CertFile(name), Blob(pair.cert));
        ghost var disk1 := bfe.disk;
        if ok {
          ok := bfe.DumpFile(KeyFile(name), Blob(pair.key));
        }
        PairDumped(State(), name, todo, before, disk, disk1, bfe.disk, ok);
        if !ok {
          return false;
        }
      }
      return true;
    }

    method Activate()
      modifies `serverCertVersion, `tlsRuleVersion
      ensures State() == old(State()) && Active() == TlsActivated(State())
    {
      serverCertVersion := serverCertConfVersion;
      tlsRuleVersion := tlsRuleConfVersion;
    }
  }

  lemma CleanIsActive(s: TlsState, a: TlsActive)
    requires |TlsDocs(s, a)| == 2 && forall i :: 0 <= i < 2 ==> !Dirty(TlsDocs(s, a)[i])
    ensures a == TlsActivated(s)
  {
    assert !Dirty(TlsDocs(s, a)[0]) && !Dirty(TlsDocs(s, a)[1]);
  }

  // ---------------------------------------------------------------- the loops' steps

  lemma {:induction false} OneBadSecret(s: TlsState, secrets: seq<Secret>, n: nat)
    requires n <= |secrets| && !UpdateSecrets(s, secrets[..n]).1
    ensures UpdateSecrets(s, secrets) == UpdateSecrets(s, secrets[..n])
  {
    if n == |secrets| {
      assert secrets[..n] == secrets;
    } else {
      assert secrets[..|secrets| - 1][..n] == secrets[..n];
      OneBadSecret(s, secrets[..|secrets| - 1], n);
    }
  }

  lemma MoreDeleted(first: set<string>, before: set<string>, after: set<string>, env: Env, env1: Env, env2: Env)
    requires after <= before <= first
    requires CertFilesDeleted(first - before, env, env1) && CertFilesDeleted(before - after, env1, env2)
    ensures CertFilesDeleted(first - after, env, env2)
  {
  }

  /** The files of the secrets in rest are still to be written. */
  ghost predicate Dumps(files: Files, rest: set<string>, disk: Files) {
    forall f: FileName :: f in files && ((f.CertFile? || f.KeyFile?) ==> f.secret !in rest) ==> Reloads.Lookup(disk, f) == Some(files[f])
  }

  ghost predicate OthersKept(files: Files, disk: Files, disk': Files) {
    forall f :: f !in files ==> Reloads.Lookup(disk', f) == Reloads.Lookup(disk, f)
  }

  lemma ConfDumped(t: TlsState, disk: Files, disk': Files, ok: bool)
    requires forall f :: f != ServerCertData ==> Reloads.Lookup(disk', f) == Reloads.Lookup(disk, f)
    requires ok ==> Reloads.Lookup(disk', ServerCertData) == Some(ServerCert(t.serverCertVersion, t.certConf))
    ensures OthersKept(CertFiles(t), disk, disk') && (ok ==> Dumps(CertFiles(t), t.certConf, disk'))
  {
  }

  lemma DefaultHasNoFiles(t: TlsState, rest: set<string>, disk: Files)
    requires Dumps(CertFiles(t), rest, disk)
    ensures Dumps(CertFiles(t), rest - {DEFAULT_CN_NAME}, disk)
  {
  }

  lemma PairDumped(t: TlsState, name: string, rest: set<string>, before: Files, disk: Files, disk1: Files, disk2: Files, ok: bool)
    requires name in t.certConf && name != DEFAULT_CN_NAME && OthersKept(CertFiles(t), before, disk) && Dumps(CertFiles(t), rest, disk)
    requires forall f :: f != CertFile(name) ==> Reloads.Lookup(disk1, f) == Reloads.Lookup(disk, f)
    requires forall f :: f != KeyFile(name) ==> Reloads.Lookup(disk2, f) == Reloads.Lookup(disk1, f)
    requires var pair := if name in t.certs then t.certs[name] else KeyPair([], []);
             ok ==> Reloads.Lookup(disk1, CertFile(name)) == Some(Blob(pair.cert)) && Reloads.Lookup(disk2, KeyFile(name)) == Some(Blob(pair.key))
    ensures OthersKept(CertFiles(t), before, disk2) && (ok ==> Dumps(CertFiles(t), rest - {name}, disk2))
  {
  }
}
