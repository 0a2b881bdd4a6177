/** Reload safety and agreement written out: which file holds what, on disk and in BFE. */
module ReloadContents {
  import opened Multimaps
  import opened Reloads
  import opened Documents
  import opened Builder
  import Tls

  /** The file holds the content, and BFE has loaded it. */
  predicate InPlace(env: Env, f: FileName, content: Content) {
    f in env.disk && env.disk[f] == content && f in env.loaded && env.loaded[f] == content
  }

  predicate HostTableInPlace(x: State) {
    InPlace(x.env, HostRuleData, HostTable(x.server.hostVersion))
  }

  predicate RouteTableInPlace(x: State) {
    InPlace(x.env, RouteRuleData, Content.RouteTable(x.server.routeVersion, x.server.routeTable))
  }

  predicate ClusterConfInPlace(x: State) {
    InPlace(x.env, ClusterConfData, ClusterConf(x.server.clusterVersion, x.server.clusterConf))
  }

  predicate GslbInPlace(x: State) {
    InPlace(x.env, GslbData, Gslb(x.cluster.gslbVersion, x.cluster.gslb))
  }

  predicate ClusterTableInPlace(x: State) {
    InPlace(x.env, ClusterTableData, ClusterTable(x.cluster.tableVersion, x.cluster.table))
  }

  /** server_cert_conf.data, and for every cert its certificate and its key in the file of each. */
  predicate CertsInPlace(x: State) {
    && InPlace(x.env, ServerCertData, ServerCert(x.tls.serverCertVersion, x.tls.certConf))
    && forall n :: n in x.tls.certs ==>
         InPlace(x.env, CertFile(n), Blob(x.tls.certs[n].cert)) && InPlace(x.env, KeyFile(n), Blob(x.tls.certs[n].key))
  }

  predicate TlsRuleInPlace(x: State) {
    InPlace(x.env, TlsRuleData, TlsRule(x.tls.tlsRuleVersion))
  }

  /** All files are as the configuration in memory is. */
  predicate AllInPlace(x: State) {
    && HostTableInPlace(x) && RouteTableInPlace(x) && ClusterConfInPlace(x)
    && GslbInPlace(x) && ClusterTableInPlace(x)
    && CertsInPlace(x) && TlsRuleInPlace(x)
  }

  /** Each file is, when the version recorded for it is the one in memory. */
  predicate CurrentInPlace(x: State) {
    && (x.serverActive.host == x.server.hostVersion ==> HostTableInPlace(x))
    && (x.serverActive.route == x.server.routeVersion ==> RouteTableInPlace(x))
    && (x.serverActive.clusterConf == x.server.clusterVersion ==> ClusterConfInPlace(x))
    && (x.clusterActive.gslb == x.cluster.gslbVersion ==> GslbInPlace(x))
    && (x.clusterActive.table == x.cluster.tableVersion ==> ClusterTableInPlace(x))
    && (x.tlsActive.serverCert == x.tls.serverCertVersion ==> CertsInPlace(x))
    && (x.tlsActive.tlsRule == x.tls.tlsRuleVersion ==> TlsRuleInPlace(x))
  }

  // ---------------------------------------------------------------- each document

  lemma OneFileAgrees(d: Doc, env: Env, f: FileName, content: Content)
    requires d.files == map[f := content]
    ensures Agrees(d, env) <==> InPlace(env, f, content)
  {
    assert f in d.files;
  }

  lemma CertNames(names: set<string>, f: FileName)
    ensures f in CertFileNames(names) <==>
            f == ServerCertData || ((f.CertFile? || f.KeyFile?) && f.secret in names && f.secret != Tls.DEFAULT_CN_NAME)
  {
  }

  lemma CertFilesAt(t: Tls.TlsState, a: TlsActive, f: FileName)
    ensures |TlsDocs(t, a)| == 2 && (f in TlsDocs(t, a)[0].files <==> f in CertFileNames(t.certConf))
    ensures f in CertFileNames(t.certConf) ==> TlsDocs(t, a)[0].files[f] == CertContent(t, f)
  {
    hide CertFileNames; hide CertContent;
  }

  lemma CertConfIs(t: Tls.TlsState, n: string)
    requires Tls.Inv(t)
    ensures n in t.certConf && n != Tls.DEFAULT_CN_NAME <==> n in t.certs
  {
    hide Tls.Secrets;
    Tls.DefaultStays(t);
  }

  /** A file of the first document is one of these three, and each holds its own part. */
  lemma CertFileHolds(t: Tls.TlsState, a: TlsActive, f: FileName)
    requires Tls.Inv(t)
    ensures var files := TlsDocs(t, a)[0].files;
            && (f in files <==> f == ServerCertData || ((f.CertFile? || f.KeyFile?) && f.secret in t.certs))
            && (f in files && f == ServerCertData ==> files[f] == ServerCert(t.serverCertVersion, t.certConf))
            && (f in files && f.CertFile? ==> files[f] == Blob(t.certs[f.secret].cert))
            && (f in files && f.KeyFile? ==> files[f] == Blob(t.certs[f.secret].key))
  {
    hide TlsDocs; hide Tls.Inv; hide CertFileNames;
    CertFilesAt(t, a, f);
    CertNames(t.certConf, f);
    if f.CertFile? || f.KeyFile? {
      CertConfIs(t, f.secret);
    }
  }

  lemma CertsAgree(x: State)
    requires Tls.Inv(x.tls)
    ensures Agrees(TlsDocs(x.tls, x.tlsActive)[0], x.env) <==> CertsInPlace(x)
  {
    hide TlsDocs; hide Tls.Inv; hide InPlace; hide Agrees;
    var t := x.tls;
    CertFilesAt(t, x.tlsActive, ServerCertData);
    var d := TlsDocs(t, x.tlsActive)[0];
    AgreesInPlace(d, x.env);
    forall f
      ensures f in d.files <==> f == ServerCertData || ((f.CertFile? || f.KeyFile?) && f.secret in t.certs)
      ensures f == ServerCertData ==> d.files[f] == ServerCert(t.serverCertVersion, t.certConf)
      ensures f in d.files && f.CertFile? ==> d.files[f] == Blob(t.certs[f.secret].cert)
      ensures f in d.files && f.KeyFile? ==> d.files[f] == Blob(t.certs[f.secret].key)
    {
      CertFileHolds(t, x.tlsActive, f);
    }
    if Agrees(d, x.env) {
      assert InPlace(x.env, ServerCertData, d.files[ServerCertData]);
      forall n | n in t.certs
        ensures InPlace(x.env, CertFile(n), Blob(t.certs[n].cert)) && InPlace(x.env, KeyFile(n), Blob(t.certs[n].key))
      {
        assert CertFile(n) in d.files && KeyFile(n) in d.files;
      }
    }
  }

  lemma AgreesInPlace(d: Doc, env: Env)
    ensures Agrees(d, env) <==> forall f :: f in d.files ==> InPlace(env, f, d.files[f])
  {
    if forall f :: f in d.files ==> InPlace(env, f, d.files[f]) {
      forall f | f in d.files
        ensures Lookup(env.disk, f) == Some(d.files[f]) && Lookup(env.loaded, f) == Some(d.files[f])
      {
        assert InPlace(env, f, d.files[f]);
      }
    }
  }

  lemma EachAgrees(x: State)
    requires Tls.Inv(x.tls)
    ensures var s, c, t := ServerDocs(x.server, x.serverActive), ClusterDocs(x.cluster, x.clusterActive), TlsDocs(x.tls, x.tlsActive);
            && (Agrees(s[0], x.env) <==> HostTableInPlace(x)) && (Agrees(s[1], x.env) <==> RouteTableInPlace(x))
            && (Agrees(s[2], x.env) <==> ClusterConfInPlace(x))
            && (Agrees(c[0], x.env) <==> GslbInPlace(x)) && (Agrees(c[1], x.env) <==> ClusterTableInPlace(x))
            && (Agrees(t[0], x.env) <==> CertsInPlace(x)) && (Agrees(t[1], x.env) <==> TlsRuleInPlace(x))
  {
    hide Agrees; hide InPlace; hide CertsInPlace; hide Tls.Inv; hide CertFiles;
    CertsAgree(x);
    var s, c, t := ServerDocs(x.server, x.serverActive), ClusterDocs(x.cluster, x.clusterActive), TlsDocs(x.tls, x.tlsActive);
    OneFileAgrees(s[0], x.env, HostRuleData, HostTable(x.server.hostVersion));
    OneFileAgrees(s[1], x.env, RouteRuleData, Content.RouteTable(x.server.routeVersion, x.server.routeTable));
    OneFileAgrees(s[2], x.env, ClusterConfData, ClusterConf(x.server.clusterVersion, x.server.clusterConf));
    OneFileAgrees(c[0], x.env, GslbData, Gslb(x.cluster.gslbVersion, x.cluster.gslb));
    OneFileAgrees(c[1], x.env, ClusterTableData, ClusterTable(x.cluster.tableVersion, x.cluster.table));
    OneFileAgrees(t[1], x.env, TlsRuleData, TlsRule(x.tls.tlsRuleVersion));
  }

  // ---------------------------------------------------------------- all of them

  /** Reload safety says of each file what it holds. */
  lemma SafeExactly(x: State)
    requires Tls.Inv(x.tls)
    ensures ReloadSafe(x) <==> CurrentInPlace(x)
  {
    hide Agrees; hide Tls.Inv; hide CertFiles; hide HostTableInPlace; hide RouteTableInPlace; hide ClusterConfInPlace; hide GslbInPlace;
    hide ClusterTableInPlace; hide CertsInPlace; hide TlsRuleInPlace;
    EachAgrees(x);
    SafeOfThree(ServerDocs(x.server, x.serverActive), x.env);
    SafeOfTwo(ClusterDocs(x.cluster, x.clusterActive), x.env);
    SafeOfTwo(TlsDocs(x.tls, x.tlsActive), x.env);
  }

  lemma SafeOfThree(docs: seq<Doc>, env: Env)
    requires |docs| == 3
    ensures Safe(docs, env) <==> (Dirty(docs[0]) || Agrees(docs[0], env)) && (Dirty(docs[1]) || Agrees(docs[1], env)) && (Dirty(docs[2]) || Agrees(docs[2], env))
  {
    hide Agrees; hide Dirty;
  }

  lemma SafeOfTwo(docs: seq<Doc>, env: Env)
    requires |docs| == 2
    ensures Safe(docs, env) <==> (Dirty(docs[0]) || Agrees(docs[0], env)) && (Dirty(docs[1]) || Agrees(docs[1], env))
  {
    hide Agrees; hide Dirty;
  }

  /** So does agreement. */
  lemma AgreementExactly(x: State)
    requires Tls.Inv(x.tls)
    ensures InAgreement(x) <==> AllInPlace(x)
  {
    hide Agrees; hide Tls.Inv; hide CertFiles; hide HostTableInPlace; hide RouteTableInPlace; hide ClusterConfInPlace; hide GslbInPlace;
    hide ClusterTableInPlace; hide CertsInPlace; hide TlsRuleInPlace;
    EachAgrees(x);
    var s, c, t := ServerDocs(x.server, x.serverActive), ClusterDocs(x.cluster, x.clusterActive), TlsDocs(x.tls, x.tlsActive);
    assert forall d :: d in s <==> d == s[0] || d == s[1] || d == s[2];
    assert forall d :: d in c <==> d == c[0] || d == c[1];
    assert forall d :: d in t <==> d == t[0] || d == t[1];
  }
}
