/** The files that each of the three configurations dumps, with the version that marks each of them dirty. */
module Documents {
  import opened Reloads
  import Clusters
  import ServerData
  import Tls

  /** The versions BFE is known to run: hostTableVersion, routeTableVersion and bfeClusterConfVersion. */
  datatype ServerActive = ServerActive(host: Version, route: Version, clusterConf: Version)

  function ServerDocs(s: ServerData.ServerState, a: ServerActive): seq<Doc> {
    [Doc(s.hostVersion, a.host, map[HostRuleData := HostTable(s.hostVersion)]),
     Doc(s.routeVersion, a.route, map[RouteRuleData := Content.RouteTable(s.routeVersion, s.routeTable)]),
     Doc(s.clusterVersion, a.clusterConf, map[ClusterConfData := ClusterConf(s.clusterVersion, s.clusterConf)])]
  }

  function ServerActivated(s: ServerData.ServerState): ServerActive {
    ServerActive(s.hostVersion, s.routeVersion, s.clusterVersion)
  }

  /** gslbVersion and clusterTableVersion. */
  datatype ClusterActive = ClusterActive(gslb: Version, table: Version)

  function ClusterDocs(s: Clusters.ClusterState, a: ClusterActive): seq<Doc> {
    [Doc(s.gslbVersion, a.gslb, map[GslbData := Gslb(s.gslbVersion, s.gslb)]),
     Doc(s.tableVersion, a.table, map[ClusterTableData := ClusterTable(s.tableVersion, s.table)])]
  }

  function ClusterActivated(s: Clusters.ClusterState): ClusterActive {
    ClusterActive(s.gslbVersion, s.tableVersion)
  }

  /** serverCertVersion and tlsRuleVersion. */
  datatype TlsActive = TlsActive(serverCert: Version, tlsRule: Version)

  /** server_cert_conf.data and the two files of every configured secret but the default. */
  function CertFileNames(names: set<string>): set<FileName> {
    (set n | n in names && n != Tls.DEFAULT_CN_NAME :: CertFile(n)) +
    (set n | n in names && n != Tls.DEFAULT_CN_NAME :: KeyFile(n)) + {ServerCertData}
  }

  function CertContent(s: Tls.TlsState, f: FileName): Content {
    match f
    case CertFile(n) => Blob(if n in s.certs then s.certs[n].cert else [])
    case KeyFile(n) => Blob(if n in s.certs then s.certs[n].key else [])
    case _ => ServerCert(s.serverCertVersion, s.certConf)
  }

  function CertFiles(s: Tls.TlsState): Files {
    map f | f in CertFileNames(s.certConf) :: CertContent(s, f)
  }

  function TlsDocs(s: Tls.TlsState, a: TlsActive): seq<Doc> {
    [Doc(s.serverCertVersion, a.serverCert, CertFiles(s)),
     Doc(s.tlsRuleVersion, a.tlsRule, map[TlsRuleData := TlsRule(s.tlsRuleVersion)])]
  }

  function TlsActivated(s: Tls.TlsState): TlsActive {
    TlsActive(s.serverCertVersion, s.tlsRuleVersion)
  }

  /** Nothing but the cert and key files of the given secrets has been touched. */
  ghost predicate CertFilesDeleted(names: set<string>, env: Env, env': Env) {
    && env'.loaded == env.loaded
    && (names == {} ==> env' == env)
    && forall f: FileName :: !((f.CertFile? || f.KeyFile?) && f.secret in names) ==> Lookup(env'.disk, f) == Lookup(env.disk, f)
  }

  lemma ActivatedDocs(s: ServerData.ServerState, c: Clusters.ClusterState, t: Tls.TlsState,
                      a: ServerActive, b: ClusterActive, d: TlsActive)
    ensures Activated(ServerDocs(s, a)) == ServerDocs(s, ServerActivated(s))
    ensures Activated(ClusterDocs(c, b)) == ClusterDocs(c, ClusterActivated(c))
    ensures Activated(TlsDocs(t, d)) == TlsDocs(t, TlsActivated(t))
  {
  }

  /** The three directories and the parts within each of them have no file in common. */
  lemma FilesApart(s: ServerData.ServerState, c: Clusters.ClusterState, t: Tls.TlsState,
                   a: ServerActive, b: ClusterActive, d: TlsActive)
    ensures Apart(ServerDocs(s, a)) && Apart(ClusterDocs(c, b)) && Apart(TlsDocs(t, d))
    ensures AllFiles(ServerDocs(s, a)) == {HostRuleData, RouteRuleData, ClusterConfData}
    ensures AllFiles(ClusterDocs(c, b)) == {GslbData, ClusterTableData}
    ensures AllFiles(TlsDocs(t, d)) == CertFileNames(t.certConf) + {TlsRuleData}
    ensures forall f :: f in CertFileNames(t.certConf) ==> f.ServerCertData? || f.CertFile? || f.KeyFile?
  {
    ServerFiles(s, a);
    ClusterFiles(c, b);
    TlsFiles(t, d);
  }

  lemma ServerFiles(s: ServerData.ServerState, a: ServerActive)
    ensures Apart(ServerDocs(s, a)) && AllFiles(ServerDocs(s, a)) == {HostRuleData, RouteRuleData, ClusterConfData}
  {
    var docs := ServerDocs(s, a);
    assert docs[0] in docs && docs[1] in docs && docs[2] in docs;
    assert HostRuleData in docs[0].files && RouteRuleData in docs[1].files && ClusterConfData in docs[2].files;
  }

  lemma ClusterFiles(c: Clusters.ClusterState, b: ClusterActive)
    ensures Apart(ClusterDocs(c, b)) && AllFiles(ClusterDocs(c, b)) == {GslbData, ClusterTableData}
  {
    var docs := ClusterDocs(c, b);
    assert docs[0] in docs && docs[1] in docs;
    assert GslbData in docs[0].files && ClusterTableData in docs[1].files;
  }

  lemma TlsFiles(t: Tls.TlsState, d: TlsActive)
    ensures Apart(TlsDocs(t, d)) && AllFiles(TlsDocs(t, d)) == CertFileNames(t.certConf) + {TlsRuleData}
    ensures forall f :: f in CertFileNames(t.certConf) ==> f.ServerCertData? || f.CertFile? || f.KeyFile?
  {
    var docs := TlsDocs(t, d);
    assert docs[0] in docs && docs[1] in docs;
    assert docs[0].files.Keys == CertFileNames(t.certConf) && TlsRuleData in docs[1].files;
    forall f
      ensures f in AllFiles(docs) <==> f in CertFileNames(t.certConf) + {TlsRuleData}
    {
      if f in CertFileNames(t.certConf) { assert f in docs[0].files; }
    }
  }
}
