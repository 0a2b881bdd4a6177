/** The reload protocol shared by the three Reload methods: files, BFE's loaded configuration, and versions. */
module Reloads {
  import opened Multimaps
  import Clusters
  import ServerData

  type Version = nat

  /** The files of one configuration directory; the printed paths are not modelled. */
  datatype FileName =
    | HostRuleData | RouteRuleData | ClusterConfData
    | GslbData | ClusterTableData
    | ServerCertData | TlsRuleData | CertFile(secret: string) | KeyFile(secret: string)

  /** What a file holds; Garbage is a write that failed half way. */
  datatype Content =
    | HostTable(version: Version)
    | RouteTable(version: Version, table: ServerData.RouteTable)
    | ClusterConf(version: Version, clusters: set<string>)
    | Gslb(version: Version, gslb: map<string, Clusters.GslbCluster>)
    | ClusterTable(version: Version, backends: map<string, Clusters.ClusterBackend>)
    | ServerCert(version: Version, names: set<string>)
    | TlsRule(version: Version)
    | Blob(bytes: seq<bv8>)
    | Garbage

  type Files = map<FileName, Content>

  /** The disk, what BFE has loaded, and the number of file writes and reload requests so far. */
  datatype Env = Env(disk: Files, loaded: Files, calls: nat)

  /** One dirty-tracked part of a configuration: its files are current in BFE once active equals version. */
  datatype Doc = Doc(version: Version, active: Version, files: Files)

  predicate Dirty(d: Doc) { d.version != d.active }

  function Lookup(m: Files, f: FileName): Option<Content> {
    if f in m then Some(m[f]) else None
  }

  function LoadedFrom(loaded: Files, disk: Files, files: set<FileName>): Files {
    map f | f in loaded.Keys + (files * disk.Keys) :: if f in files && f in disk then disk[f] else loaded[f]
  }

  function AllFiles(docs: seq<Doc>): set<FileName> {
    set d, f | d in docs && f in d.files :: f
  }

  function Activated(docs: seq<Doc>): seq<Doc> {
    seq(|docs|, i requires 0 <= i < |docs| => docs[i].(active := docs[i].version))
  }

  // ---------------------------------------------------------------- what Reload does

  /** Every file outside dirty is as before. */
  ghost predicate DiskKept(disk: Files, disk': Files, docs: seq<Doc>) {
    forall f :: (forall i :: 0 <= i < |docs| && Dirty(docs[i]) ==> f !in docs[i].files) ==> Lookup(disk', f) == Lookup(disk, f)
  }

  ghost predicate Written(disk: Files, d: Doc) {
    forall f :: f in d.files ==> Lookup(disk, f) == Some(d.files[f])
  }

  /** The contract of the three Reload methods: nothing to do without a dirty part; otherwise only dirty files are
      written, success means all of them are and BFE has loaded the directory, and after a failure
      BFE may or may not have loaded it. */
  ghost predicate Reloaded(docs: seq<Doc>, env: Env, env': Env, ok: bool) {
    if forall i :: 0 <= i < |docs| ==> !Dirty(docs[i]) then env' == env && ok
    else
      && DiskKept(env.disk, env'.disk, docs)
      && (env'.loaded == LoadedFrom(env.loaded, env'.disk, AllFiles(docs)) || (!ok && env'.loaded == env.loaded))
      && (ok ==> forall i :: 0 <= i < |docs| && Dirty(docs[i]) ==> Written(env'.disk, docs[i]))
  }

  // ---------------------------------------------------------------- safety

  /** Disk and BFE both hold the part as it is in memory. */
  ghost predicate Agrees(d: Doc, env: Env) {
    forall f :: f in d.files ==> Lookup(env.disk, f) == Some(d.files[f]) && Lookup(env.loaded, f) == Some(d.files[f])
  }

  /** Whenever the recorded active version is the version in memory, disk and BFE agree with memory. */
  ghost predicate Safe(docs: seq<Doc>, env: Env) {
    forall i :: 0 <= i < |docs| && !Dirty(docs[i]) ==> Agrees(docs[i], env)
  }

  ghost predicate Apart(docs: seq<Doc>) {
    forall i, j, f :: 0 <= i < |docs| && 0 <= j < |docs| && i != j && f in docs[i].files ==> f !in docs[j].files
  }

  lemma CleanDocKept(docs: seq<Doc>, env: Env, env': Env, ok: bool, i: nat)
    requires Apart(docs) && Reloaded(docs, env, env', ok) && i < |docs| && !Dirty(docs[i]) && Agrees(docs[i], env)
    ensures Agrees(docs[i], env')
  {
  }

  lemma DirtyDocWritten(docs: seq<Doc>, env: Env, env': Env, i: nat)
    requires Reloaded(docs, env, env', true) && i < |docs| && Dirty(docs[i])
    ensures Agrees(docs[i], env')
  {
  }

  /** A reload keeps safety whether it succeeds or fails at any point, and success makes memory, disk and BFE agree. */
  lemma ReloadIsSafe(docs: seq<Doc>, env: Env, env': Env, ok: bool)
    requires Apart(docs) && Safe(docs, env) && Reloaded(docs, env, env', ok)
    ensures Safe(if ok then Activated(docs) else docs, env')
    ensures ok ==> forall i :: 0 <= i < |docs| ==> Agrees(docs[i], env')
  {
    hide Reloaded; hide Agrees; hide Apart;
    forall i | 0 <= i < |docs| && (ok || !Dirty(docs[i]))
      ensures Agrees(docs[i], env')
    {
      if Dirty(docs[i]) {
        DirtyDocWritten(docs, env, env', i);
      } else {
        CleanDocKept(docs, env, env', ok, i);
      }
    }
    if ok {
      forall i | 0 <= i < |docs|
        ensures Agrees(Activated(docs)[i], env')
      {
        SameFilesAgree(docs[i], Activated(docs)[i], env');
      }
    }
  }

  lemma SameFilesAgree(d: Doc, d': Doc, env: Env)
    requires d.files == d'.files && Agrees(d, env)
    ensures Agrees(d', env)
  {
  }

  /** A part whose files are in another directory is not affected. */
  lemma ReloadElsewhere(docs: seq<Doc>, env: Env, env': Env, ok: bool, d: Doc)
    requires Reloaded(docs, env, env', ok) && Agrees(d, env) && d.files.Keys !! AllFiles(docs)
    ensures Agrees(d, env')
  {
  }

  // ---------------------------------------------------------------- the steps of a reload

  /** The first n parts have been looked at and the dirty ones written; reload says whether there was one. */
  ghost predicate Dumped(docs: seq<Doc>, n: nat, env: Env, env': Env, reload: bool)
    requires n <= |docs|
  {
    && DiskKept(env.disk, env'.disk, docs) && env'.loaded == env.loaded
    && (forall i :: 0 <= i < n && Dirty(docs[i]) ==> Written(env'.disk, docs[i]))
    && (reload <==> exists i :: 0 <= i < n && Dirty(docs[i]))
    && (!reload ==> env' == env)
  }

  lemma DumpStarts(docs: seq<Doc>, env: Env)
    ensures Dumped(docs, 0, env, env, false)
  {
  }

  lemma SkipsOne(docs: seq<Doc>, n: nat, env: Env, env': Env, reload: bool)
    requires n < |docs| && Dumped(docs, n, env, env', reload) && !Dirty(docs[n])
    ensures Dumped(docs, n + 1, env, env', reload)
  {
  }

  /** Writes that touch files of part n only, and write all of them when they succeed. */
  lemma DumpsAll(docs: seq<Doc>, n: nat, env: Env, env1: Env, env2: Env, reload: bool, ok: bool)
    requires n < |docs| && Apart(docs) && Dumped(docs, n, env, env1, reload) && Dirty(docs[n])
    requires env2.loaded == env1.loaded && forall g :: g !in docs[n].files ==> Lookup(env2.disk, g) == Lookup(env1.disk, g)
    requires ok ==> Written(env2.disk, docs[n])
    ensures if ok then Dumped(docs, n + 1, env, env2, true) else Reloaded(docs, env, env2, false)
  {
  }

  lemma DumpsOne(docs: seq<Doc>, n: nat, env: Env, env1: Env, env2: Env, f: FileName, reload: bool, ok: bool)
    requires n < |docs| && Apart(docs) && Dumped(docs, n, env, env1, reload) && Dirty(docs[n])
    requires docs[n].files.Keys == {f}
    requires env2.loaded == env1.loaded && forall g :: g != f ==> Lookup(env2.disk, g) == Lookup(env1.disk, g)
    requires ok ==> Lookup(env2.disk, f) == Some(docs[n].files[f])
    ensures if ok then Dumped(docs, n + 1, env, env2, true) else Reloaded(docs, env, env2, false)
  {
  }

  /** A reload request for one directory: a failed one may still have reached the process. */
  ghost predicate Requested(env: Env, env': Env, files: set<FileName>, ok: bool) {
    && env'.disk == env.disk && env'.calls == env.calls + 1
    && (env'.loaded == LoadedFrom(env.loaded, env.disk, files) || (!ok && env'.loaded == env.loaded))
  }

  /** After the dumps BFE is asked to reload when one part was dirty. */
  lemma ReloadEnds(docs: seq<Doc>, n: nat, env: Env, env1: Env, env2: Env, ok: bool)
    requires n == |docs| && Dumped(docs, n, env, env1, true) && Requested(env1, env2, AllFiles(docs), ok)
    ensures Reloaded(docs, env, env2, ok)
  {
  }

  lemma NothingToReload(docs: seq<Doc>, n: nat, env: Env, env': Env)
    requires n == |docs| && Dumped(docs, n, env, env', false)
    ensures Reloaded(docs, env, env', true) && forall i :: 0 <= i < n ==> !Dirty(docs[i])
  {
  }

  lemma {:induction false} DumpsCanSucceed(docs: seq<Doc>, n: nat, env: Env) returns (env': Env, reload: bool)
    requires n <= |docs| && Apart(docs)
    ensures Dumped(docs, n, env, env', reload)
  {
    hide Dumped; hide Apart; hide Reloaded;
    if n == 0 {
      DumpStarts(docs, env);
      return env, false;
    }
    env', reload := DumpsCanSucceed(docs, n - 1, env);
    if Dirty(docs[n - 1]) {
      var written := env'.(disk := env'.disk + docs[n - 1].files);
      DumpsAll(docs, n - 1, env, env', written, reload, true);
      return written, true;
    }
    SkipsOne(docs, n - 1, env, env', reload);
  }

  /** Whatever is dirty, a reload may succeed. */
  lemma CanSucceed(docs: seq<Doc>, env: Env) returns (env': Env)
    requires Apart(docs)
    ensures Reloaded(docs, env, env', true)
  {
    hide Dumped; hide Apart; hide Reloaded;
    var dumped, reload := DumpsCanSucceed(docs, |docs|, env);
    if reload {
      env' := dumped.(loaded := LoadedFrom(dumped.loaded, dumped.disk, AllFiles(docs)), calls := dumped.calls + 1);
      ReloadEnds(docs, |docs|, env, dumped, env', true);
    } else {
      NothingToReload(docs, |docs|, env, dumped);
      env' := dumped;
    }
  }

  // ---------------------------------------------------------------- the process and its files

  /** util/io.go and the BFE process behind it: every operation may fail. */
  class Bfe {
    var disk: Files
    var loaded: Files
    var calls: nat

    ghost function State(): Env
      reads this
    {
      Env(disk, loaded, calls)
    }

    constructor ()
      ensures State() == Env(map[], map[], 0)
    {
      disk, loaded, calls := map[], map[], 0;
    }

    method DumpFile(f: FileName, content: Content) returns (ok: bool)
      modifies this
      ensures loaded == old(loaded) && calls == old(calls) + 1
      ensures forall g :: g != f ==> Lookup(disk, g) == Lookup(old(disk), g)
      ensures ok ==> Lookup(disk, f) == Some(content)
    {
      calls := calls + 1;
      ok := *;
      if ok {
        disk := disk[f := content];
      } else {
        var truncated: bool := *;
        if truncated {
          disk := disk[f := Garbage];
        }
      }
    }

    /** One block of a Reload method: dump part n when its version is not the active one. */
    method DumpPart(ghost docs: seq<Doc>, ghost n: nat, ghost env: Env, reload: bool, dirty: bool, f: FileName, content: Content)
      returns (ok: bool, reload': bool)
      requires n < |docs| && Apart(docs) && Dumped(docs, n, env, State(), reload)
      requires dirty == Dirty(docs[n]) && docs[n].files == map[f := content]
      modifies this
      ensures if ok then Dumped(docs, n + 1, env, State(), reload') else Reloaded(docs, env, State(), false)
    {
      hide Apart; hide Dumped; hide Reloaded;
      if !dirty {
        SkipsOne(docs, n, env, State(), reload);
        return true, reload;
      }
      ghost var before := State();
      ok := DumpFile(f, content);
      DumpsOne(docs, n, env, before, State(), f, reload, ok);
      return ok, true;
    }

    /** os.Remove, whose error is ignored. */
    method DeleteFile(f: FileName)
      modifies this
      ensures loaded == old(loaded)
      ensures forall g :: g != f ==> Lookup(disk, g) == Lookup(old(disk), g)
    {
      calls := calls + 1;
      var removed: bool := *;
      if removed {
        disk := disk - {f};
      }
    }

    method ReloadBfe(files: set<FileName>) returns (ok: bool)
      modifies this
      ensures Requested(old(State()), State(), files, ok)
    {
      calls := calls + 1;
      ok := *;
      var arrived: bool := *;
      if ok || arrived {
        loaded := LoadedFrom(loaded, disk, files);
      }
    }
  }
}
