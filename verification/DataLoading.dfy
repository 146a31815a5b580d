/** Edits of the PXF servers and data-loading jobs of a cluster: the closures that
    API handlers run on a freshly fetched object, and the keyed store they amount to. */
module DataLoading {
  import opened Basics
  import opened NamedList

  datatype ServerBody = ServerBody(
    kind: string, config: map<string, string>, hive: map<string, string>, hbase: map<string, string>,
    jdbc: map<string, string>, secrets: seq<string>, kerberos: Option<string>)

  /** The parts of a job that no edit looks into are texts. */
  datatype PxfJob = PxfJob(server: string, settings: string)

  datatype JobBody = JobBody(
    kind: string, enabled: bool, schedule: string, pxfJob: Option<PxfJob>, gploadJob: Option<string>)

  type Server = Named<ServerBody>
  type Job = Named<JobBody>

  datatype DataLoadingSpec = DataLoadingSpec(pxf: Option<seq<Server>>, jobs: seq<Job>)

  type Spec = Option<DataLoadingSpec>

  datatype ServerUpdate = ServerUpdate(
    kind: string, config: map<string, string>, hive: map<string, string>, hbase: map<string, string>,
    jdbc: map<string, string>, secrets: seq<string>)

  datatype Request =
    | CreateServer(name: string, server: ServerUpdate)
    | UpdateServer(name: string, change: ServerUpdate)
    | DeleteServer(name: string)
    | CreateJob(name: string, job: JobBody)
    | UpdateJob(name: string, job: JobBody)
    | DeleteJob(name: string)

  datatype Error = ServerNotFound | ServerExists | ServerInUse(jobs: seq<string>) | JobNotFound | JobExists

  // ------------------------------------------------------------ helpers of edits

  /** Keys of the overlay win; all others are kept. */
  method MergeStringMap(base: map<string, string>, overlay: map<string, string>) returns (merged: map<string, string>)
    ensures merged == base + overlay
  {
    if |overlay| == 0 { return base; }
    merged := base;
    var todo := overlay.Keys;
    while todo != {}
      invariant todo <= overlay.Keys
      invariant merged == base + (overlay - todo)
    {
      var k :| k in todo;
      merged := merged[k := overlay[k]];
      todo := todo - {k};
    }
  }

  /** The servers-changed signal fires on a real difference and on nothing else. */
  method PxfServersDataEqual(a: map<string, string>, b: map<string, string>) returns (r: bool)
    ensures r <==> a == b
  {
    if |a| != |b| { return false; }
    var todo := a.Keys;
    while todo != {}
      invariant todo <= a.Keys
      invariant forall k :: k in a && k !in todo ==> k in b && b[k] == a[k]
    {
      var k :| k in todo;
      if k !in b || b[k] != a[k] { return false; }
      todo := todo - {k};
    }
    SubsetSize(a.Keys, b.Keys);
    return true;
  }

  predicate Refers(job: JobBody, server: string) {
    job.pxfJob.Some? && job.pxfJob.value.server == server
  }

  function Referencing(jobs: seq<Job>, server: string): seq<string> {
    if jobs == [] then []
    else Referencing(jobs[..|jobs| - 1], server)
         + if Refers(jobs[|jobs| - 1].body, server) then [jobs[|jobs| - 1].name] else []
  }

  /** The names listed are those of the referring jobs, and no list means no such job. */
  lemma {:induction false} ReferencingExactly(jobs: seq<Job>, server: string, name: string)
    ensures name in Referencing(jobs, server) <==>
              exists i :: 0 <= i < |jobs| && jobs[i].name == name
                          && jobs[i].body.pxfJob.Some? && jobs[i].body.pxfJob.value.server == server
  {
    if jobs != [] {
      var n := |jobs| - 1;
      ReferencingExactly(jobs[..n], server, name);
      if i :| 0 <= i < |jobs| && jobs[i].name == name && Refers(jobs[i].body, server) {
        if i < n { assert jobs[..n][i].name == name; }
      }
      if i :| 0 <= i < n && jobs[..n][i].name == name && Refers(jobs[..n][i].body, server) {
        assert jobs[i].name == name;
      }
    }
  }

  method JobsReferencingServer(spec: Spec, server: string) returns (refs: seq<string>)
    ensures refs == Referencing(JobsOf(spec), server)
  {
    refs := [];
    var jobs := JobsOf(spec);
    for i := 0 to |jobs|
      invariant refs == Referencing(jobs[..i], server)
    {
      assert jobs[..i + 1][..i] == jobs[..i];
      if Refers(jobs[i].body, server) { refs := refs + [jobs[i].name]; }
    }
    assert jobs[..|jobs|] == jobs;
  }

  function Merged(body: ServerBody, change: ServerUpdate): ServerBody {
    ServerBody(
      if change.kind != "" then change.kind else body.kind,
      body.config + change.config, body.hive + change.hive, body.hbase + change.hbase, body.jdbc + change.jdbc,
      if change.secrets != [] then change.secrets else body.secrets,
      body.kerberos)
  }

  method MergePxfServerUpdate(body: ServerBody, change: ServerUpdate) returns (merged: ServerBody)
    ensures merged == Merged(body, change)
  {
    merged := body;
    if change.kind != "" { merged := merged.(kind := change.kind); }
    var config := MergeStringMap(merged.config, change.config);
    var hive := MergeStringMap(merged.hive, change.hive);
    var hbase := MergeStringMap(merged.hbase, change.hbase);
    var jdbc := MergeStringMap(merged.jdbc, change.jdbc);
    merged := merged.(config := config, hive := hive, hbase := hbase, jdbc := jdbc);
    if |change.secrets| > 0 { merged := merged.(secrets := change.secrets); }
  }

  /** `merged` is `base` with the keys of `change` set: those keys have the new values, all others the old. */
  ghost predicate KeyByKey(base: map<string, string>, change: map<string, string>, merged: map<string, string>) {
    forall k ::
      && (k in merged <==> k in base || k in change)
      && (k in change ==> k in merged && merged[k] == change[k])
      && (k in base && k !in change ==> k in merged && merged[k] == base[k])
  }

  /** Field by field: maps change key by key, the type and the secrets when the request has
      some, and Kerberos never. */
  lemma MergedFields(body: ServerBody, change: ServerUpdate)
    ensures var merged := Merged(body, change);
            && KeyByKey(body.config, change.config, merged.config) && KeyByKey(body.hive, change.hive, merged.hive)
            && KeyByKey(body.hbase, change.hbase, merged.hbase) && KeyByKey(body.jdbc, change.jdbc, merged.jdbc)
            && (change.kind == "" ==> merged.kind == body.kind) && (change.kind != "" ==> merged.kind == change.kind)
            && (|change.secrets| == 0 ==> merged.secrets == body.secrets)
            && (|change.secrets| > 0 ==> merged.secrets == change.secrets)
            && merged.kerberos == body.kerberos
  {
    OverlayKeys(body.config, change.config);
    OverlayKeys(body.hive, change.hive);
    OverlayKeys(body.hbase, change.hbase);
    OverlayKeys(body.jdbc, change.jdbc);
  }

  lemma OverlayKeys(base: map<string, string>, change: map<string, string>)
    ensures KeyByKey(base, change, base + change)
  {}

  /** A new server has the fields of the request, and no Kerberos settings; so an update of a
      blank server that asks for the same fields makes the same server. */
  lemma NewServerFields(s: ServerUpdate)
    ensures var new' := NewServer(s);
            && new'.kind == s.kind && new'.config == s.config && new'.hive == s.hive && new'.hbase == s.hbase
            && new'.jdbc == s.jdbc && new'.secrets == s.secrets && new'.kerberos == None
    ensures Merged(ServerBody("", map[], map[], map[], map[], [], None), s) == NewServer(s)
  {
    OntoNothing(s.config);
    OntoNothing(s.hive);
    OntoNothing(s.hbase);
    OntoNothing(s.jdbc);
  }

  lemma OntoNothing(m: map<string, string>)
    ensures map[] + m == m
  {}

  /** Applying an update twice is applying it once. */
  lemma MergeIdempotent(body: ServerBody, change: ServerUpdate)
    ensures Merged(Merged(body, change), change) == Merged(body, change)
  {
    MergeTwice(body.config, change.config);
    MergeTwice(body.hive, change.hive);
    MergeTwice(body.hbase, change.hbase);
    MergeTwice(body.jdbc, change.jdbc);
  }

  /** An update that supplies nothing changes nothing. */
  lemma MergeNothing(body: ServerBody, nothing: map<string, string>)
    requires nothing == map[]
    ensures Merged(body, ServerUpdate("", nothing, nothing, nothing, nothing, [])) == body
  {
    OverlayNothing(body.config, nothing);
    OverlayNothing(body.hive, nothing);
    OverlayNothing(body.hbase, nothing);
    OverlayNothing(body.jdbc, nothing);
  }

  lemma OverlayNothing(a: map<string, string>, nothing: map<string, string>)
    requires nothing == map[]
    ensures a + nothing == a
  {}

  lemma MergeTwice(a: map<string, string>, b: map<string, string>)
    ensures (a + b) + b == a + b
  {}

  function NewServer(s: ServerUpdate): ServerBody {
    ServerBody(s.kind, s.config, s.hive, s.hbase, s.jdbc, s.secrets, None)
  }

  // ---------------------------------------------------------------------- edits

  function ServersOf(s: Spec): Option<seq<Server>> {
    if s.None? then None else s.value.pxf
  }

  function JobsOf(s: Spec): seq<Job> {
    if s.None? then [] else s.value.jobs
  }

  function WithServers(s: Spec, servers: seq<Server>): Spec
    requires s.Some?
  {
    Some(s.value.(pxf := Some(servers)))
  }

  function WithJobs(s: Spec, jobs: seq<Job>): Spec {
    Some(DataLoadingSpec(ServersOf(s), jobs))
  }

  /** What a request makes of the object it is run on. */
  function Apply(r: Request, s: Spec): Result<Spec, Error> {
    match r
    case CreateServer(_, _) => ApplyCreateServer(r.name, r.server, s)
    case UpdateServer(_, _) => ApplyUpdateServer(r.name, r.change, s)
    case DeleteServer(_) => ApplyDeleteServer(r.name, s)
    case CreateJob(_, _) => ApplyCreateJob(r.name, r.job, s)
    case UpdateJob(_, _) => ApplyUpdateJob(r.name, r.job, s)
    case DeleteJob(_) => ApplyDeleteJob(r.name, s)
  }

  function ApplyCreateServer(name: string, server: ServerUpdate, s: Spec): Result<Spec, Error> {
    if ServersOf(s).None? then Err(ServerNotFound)
    else if IndexOf(ServersOf(s).value, name) >= 0 then Err(ServerExists)
    else Ok(WithServers(s, ServersOf(s).value + [Named(name, NewServer(server))]))
  }

  function ApplyUpdateServer(name: string, change: ServerUpdate, s: Spec): Result<Spec, Error> {
    if ServersOf(s).None? then Err(ServerNotFound)
    else
      var servers := ServersOf(s).value;
      var i := IndexOf(servers, name);
      if i < 0 then Err(ServerNotFound)
      else Ok(WithServers(s, servers[i := Named(servers[i].name, Merged(servers[i].body, change))]))
  }

  function ApplyDeleteServer(name: string, s: Spec): Result<Spec, Error> {
    if ServersOf(s).None? then Err(ServerNotFound)
    else
      var i := IndexOf(ServersOf(s).value, name);
      if i < 0 then Err(ServerNotFound)
      else if Referencing(JobsOf(s), name) != [] then Err(ServerInUse(Referencing(JobsOf(s), name)))
      else Ok(WithServers(s, Removed(ServersOf(s).value, i)))
  }

  function ApplyCreateJob(name: string, job: JobBody, s: Spec): Result<Spec, Error> {
    if IndexOf(JobsOf(s), name) >= 0 then Err(JobExists)
    else Ok(WithJobs(s, JobsOf(s) + [Named(name, job)]))
  }

  function ApplyUpdateJob(name: string, job: JobBody, s: Spec): Result<Spec, Error> {
    var i := IndexOf(JobsOf(s), name);
    if i < 0 then Err(JobNotFound) else Ok(WithJobs(s, JobsOf(s)[i := Named(name, job)]))
  }

  function ApplyDeleteJob(name: string, s: Spec): Result<Spec, Error> {
    var i := IndexOf(JobsOf(s), name);
    if i < 0 then Err(JobNotFound) else Ok(WithJobs(s, Removed(JobsOf(s), i)))
  }

  /** What a handler rejects before it runs its closure, on the object it has read first: the
      deletion of a server in use, and a new PXF job that names a server which is not defined. */
  predicate Rejects(r: Request, s: Spec) {
    match r
    case DeleteServer(name) => Referencing(JobsOf(s), name) != []
    case CreateJob(_, job) =>
      && job.kind == "pxf" && job.pxfJob.Some? && job.pxfJob.value.server != ""
      && (ServersOf(s).None? || IndexOf(ServersOf(s).value, job.pxfJob.value.server) < 0)
    case _ => false
  }

  /** The check before a job is created finds the missing server; the one before a deletion, the jobs in the way. */
  lemma RejectsExactly(s: Spec, name: string, job: JobBody)
    ensures Rejects(CreateJob(name, job), s) <==>
            job.kind == "pxf" && job.pxfJob.Some? && job.pxfJob.value.server != ""
            && !(ServersOf(s).Some? && HasName(ServersOf(s).value, job.pxfJob.value.server))
    ensures Rejects(DeleteServer(name), s) <==>
            exists i :: 0 <= i < |JobsOf(s)| && JobsOf(s)[i].body.pxfJob.Some?
                        && JobsOf(s)[i].body.pxfJob.value.server == name
    ensures !Rejects(UpdateJob(name, job), s)
  {
    var refs := Referencing(JobsOf(s), name);
    if refs != [] {
      ReferencingExactly(JobsOf(s), name, refs[0]);
    }
    if i :| 0 <= i < |JobsOf(s)| && Refers(JobsOf(s)[i].body, name) {
      ReferencingExactly(JobsOf(s), name, JobsOf(s)[i].name);
    }
  }

  /** The freshly fetched object that a closure edits in place. */
  class Latest {
    var spec: Spec

    constructor (fetched: Spec)
      ensures spec == fetched
    {
      spec := fetched;
    }

    method CreateServer(name: string, server: ServerUpdate) returns (err: Option<Error>)
      modifies this
      ensures Edited(ApplyCreateServer(name, server, old(spec)), old(spec), err, spec)
    {
      if spec.None? || spec.value.pxf.None? { return Some(ServerNotFound); }
      var servers := spec.value.pxf.value;
      var i := FindIndex(servers, name);
      if i >= 0 { return Some(ServerExists); }
      spec := Some(spec.value.(pxf := Some(servers + [Named(name, NewServer(server))])));
      return None;
    }

    method UpdateServer(name: string, change: ServerUpdate) returns (err: Option<Error>)
      modifies this
      ensures Edited(ApplyUpdateServer(name, change, old(spec)), old(spec), err, spec)
    {
      if spec.None? || spec.value.pxf.None? { return Some(ServerNotFound); }
      var servers := spec.value.pxf.value;
      var i := FindIndex(servers, name);
      if i < 0 { return Some(ServerNotFound); }
      var merged := MergePxfServerUpdate(servers[i].body, change);
      spec := Some(spec.value.(pxf := Some(servers[i := servers[i].(body := merged)])));
      return None;
    }

    method DeleteServer(name: string) returns (err: Option<Error>)
      modifies this
      ensures Edited(ApplyDeleteServer(name, old(spec)), old(spec), err, spec)
    {
      if spec.None? || spec.value.pxf.None? { return Some(ServerNotFound); }
      var servers := spec.value.pxf.value;
      var i := FindIndex(servers, name);
      if i < 0 { return Some(ServerNotFound); }
      var refs := JobsReferencingServer(spec, name);
      if |refs| > 0 { return Some(ServerInUse(refs)); }
      spec := Some(spec.value.(pxf := Some(servers[..i] + servers[i + 1..])));
      return None;
    }

    method CreateJob(name: string, job: JobBody) returns (err: Option<Error>)
      modifies this
      ensures Edited(ApplyCreateJob(name, job, old(spec)), old(spec), err, spec)
    {
      if spec.None? { spec := Some(DataLoadingSpec(None, [])); }
      var jobs := spec.value.jobs;
      var i := FindIndex(jobs, name);
      if i >= 0 { return Some(JobExists); }
      spec := Some(spec.value.(jobs := jobs + [Named(name, job)]));
      return None;
    }

    method UpdateJob(name: string, job: JobBody) returns (err: Option<Error>)
      modifies this
      ensures Edited(ApplyUpdateJob(name, job, old(spec)), old(spec), err, spec)
    {
      if spec.None? { return Some(JobNotFound); }
      var jobs := spec.value.jobs;
      var i := FindIndex(jobs, name);
      if i < 0 { return Some(JobNotFound); }
      spec := Some(spec.value.(jobs := jobs[i := Named(name, job)]));
      return None;
    }

    method DeleteJob(name: string) returns (err: Option<Error>)
      modifies this
      ensures Edited(ApplyDeleteJob(name, old(spec)), old(spec), err, spec)
    {
      if spec.None? { return Some(JobNotFound); }
      var jobs := spec.value.jobs;
      var i := FindIndex(jobs, name);
      if i < 0 { return Some(JobNotFound); }
      spec := Some(spec.value.(jobs := jobs[..i] + jobs[i + 1..]));
      return None;
    }
  }

  /** A closure either edits the object as it should or reports the error and leaves it alone. */
  ghost predicate Edited(result: Result<Spec, Error>, before: Spec, err: Option<Error>, after: Spec) {
    match result
    case Ok(edited) => err == None && after == edited
    case Err(e) => err == Some(e) && after == before
  }

  // ------------------------------------------------------------ the keyed store

  /** The servers and jobs by name; no servers at all while PXF is not configured. */
  datatype Store = Store(servers: Option<map<string, ServerBody>>, jobs: map<string, JobBody>)

  datatype Refusal = NoServer | SameServer | InUse(jobs: set<string>) | NoJob | SameJob

  ghost predicate WellFormed(s: Spec) {
    (ServersOf(s).Some? ==> Unique(ServersOf(s).value)) && Unique(JobsOf(s))
  }

  ghost function View(s: Spec): Store
    requires WellFormed(s)
  {
    Store(if ServersOf(s).None? then None else Some(ToMap(ServersOf(s).value)), ToMap(JobsOf(s)))
  }

  ghost function Users(jobs: map<string, JobBody>, server: string): set<string> {
    set n | n in jobs && Refers(jobs[n], server)
  }

  /** What a request means for the keyed store. */
  ghost function Meaning(r: Request, st: Store): Result<Store, Refusal> {
    match r
    case CreateServer(name, server) =>
      if st.servers.None? then Err(NoServer)
      else if name in st.servers.value then Err(SameServer)
      else Ok(st.(servers := Some(st.servers.value[name := NewServer(server)])))
    case UpdateServer(name, change) =>
      if st.servers.None? || name !in st.servers.value then Err(NoServer)
      else Ok(st.(servers := Some(st.servers.value[name := Merged(st.servers.value[name], change)])))
    case DeleteServer(name) =>
      if st.servers.None? || name !in st.servers.value then Err(NoServer)
      else if Users(st.jobs, name) != {} then Err(InUse(Users(st.jobs, name)))
      else Ok(st.(servers := Some(st.servers.value - {name})))
    case CreateJob(name, job) =>
      if name in st.jobs then Err(SameJob) else Ok(st.(jobs := st.jobs[name := job]))
    case UpdateJob(name, job) =>
      if name !in st.jobs then Err(NoJob) else Ok(st.(jobs := st.jobs[name := job]))
    case DeleteJob(name) =>
      if name !in st.jobs then Err(NoJob) else Ok(st.(jobs := st.jobs - {name}))
  }

  ghost function Kind(e: Error): Refusal {
    match e
    case ServerNotFound => NoServer
    case ServerExists => SameServer
    case ServerInUse(jobs) => InUse(NameSet(jobs))
    case JobNotFound => NoJob
    case JobExists => SameJob
  }

  ghost function NameSet(names: seq<string>): set<string> { set n | n in names }

  lemma UsersAreListed(jobs: seq<Job>, server: string)
    requires Unique(jobs)
    ensures Users(ToMap(jobs), server) == NameSet(Referencing(jobs, server))
    ensures Users(ToMap(jobs), server) == {} <==> Referencing(jobs, server) == []
  {
    var refs := Referencing(jobs, server);
    forall n ensures n in Users(ToMap(jobs), server) <==> n in refs {
      ReferencingExactly(jobs, server, n);
      MapKeys(jobs, n);
      if HasName(jobs, n) {
        var i :| 0 <= i < |jobs| && jobs[i].name == n;
        MapAt(jobs, i);
      }
    }
    if refs != [] { assert refs[0] in Users(ToMap(jobs), server); }
  }

  /** The list edits refine the keyed store: names stay unique, an accepted request
      does to the store what it means, and a refused one is refused for the same reason. */
  ghost predicate Refines(r: Request, s: Spec)
    requires WellFormed(s)
  {
    match Apply(r, s)
    case Ok(edited) => WellFormed(edited) && Meaning(r, View(s)) == Ok(View(edited))
    case Err(e) => Meaning(r, View(s)) == Err(Kind(e))
  }

  lemma JobsView(s: Spec, jobs: seq<Job>)
    requires WellFormed(s) && Unique(jobs)
    ensures WellFormed(WithJobs(s, jobs))
    ensures View(WithJobs(s, jobs)) == View(s).(jobs := ToMap(jobs))
  {}

  lemma ServersView(s: Spec, servers: seq<Server>)
    requires WellFormed(s) && s.Some? && Unique(servers)
    ensures WellFormed(WithServers(s, servers))
    ensures View(WithServers(s, servers)) == View(s).(servers := Some(ToMap(servers)))
  {}

  lemma ServerEditsRefine(r: Request, s: Spec)
    requires WellFormed(s) && (r.CreateServer? || r.UpdateServer?)
    ensures Refines(r, s)
  {
    if ServersOf(s).Some? {
      var servers := ServersOf(s).value;
      var i := IndexOf(servers, r.name);
      MapKeys(servers, r.name);
      if i < 0 {
        if r.CreateServer? { AppendView(servers, Named(r.name, NewServer(r.server))); }
      } else {
        MapAt(servers, i);
        if r.UpdateServer? { ReplaceView(servers, i, Merged(servers[i].body, r.change)); }
      }
    }
  }

  predicate Deletable(name: string, s: Spec) {
    ServersOf(s).Some? && IndexOf(ServersOf(s).value, name) >= 0 && Referencing(JobsOf(s), name) == []
  }

  lemma ServerRemovalRefines(r: Request, s: Spec)
    requires WellFormed(s) && r.DeleteServer?
    ensures Refines(r, s)
  {
    if Deletable(r.name, s) { UnusedServerLeaves(r, s); } else { DeletionRefused(r, s); }
  }

  lemma DeletionRefused(r: Request, s: Spec)
    requires WellFormed(s) && r.DeleteServer? && !Deletable(r.name, s)
    ensures Refines(r, s)
  {
    if ServersOf(s).Some? && IndexOf(ServersOf(s).value, r.name) >= 0 {
      ServerInUseRefused(r, s);
    } else if ServersOf(s).Some? {
      MapKeys(ServersOf(s).value, r.name);
    }
  }

  lemma ServerInUseRefused(r: Request, s: Spec)
    requires WellFormed(s) && r.DeleteServer? && ServersOf(s).Some?
    requires IndexOf(ServersOf(s).value, r.name) >= 0 && Referencing(JobsOf(s), r.name) != []
    ensures Refines(r, s)
  {
    var refs := Referencing(JobsOf(s), r.name);
    assert Meaning(r, View(s)) == Err(InUse(NameSet(refs))) by {
      MapKeys(ServersOf(s).value, r.name);
      UsersAreListed(JobsOf(s), r.name);
      UsedServerStays(r, View(s));
    }
    assert Apply(r, s) == ApplyDeleteServer(r.name, s) == Err(ServerInUse(refs));
  }

  lemma UsedServerStays(r: Request, st: Store)
    requires r.DeleteServer? && st.servers.Some? && r.name in st.servers.value && Users(st.jobs, r.name) != {}
    ensures Meaning(r, st) == Err(InUse(Users(st.jobs, r.name)))
  {}

  lemma UnusedServerLeaves(r: Request, s: Spec)
    requires WellFormed(s) && r.DeleteServer? && Deletable(r.name, s)
    ensures Refines(r, s)
  {
    var servers := ServersOf(s).value;
    var i := IndexOf(servers, r.name);
    MapAt(servers, i);
    UsersAreListed(JobsOf(s), r.name);
    RemoveView(servers, i);
    ServersView(s, Removed(servers, i));
  }

  lemma JobsRefine(r: Request, s: Spec, jobs: seq<Job>)
    requires WellFormed(s) && Unique(jobs) && Apply(r, s) == Ok(WithJobs(s, jobs))
    requires Meaning(r, View(s)) == Ok(View(s).(jobs := ToMap(jobs)))
    ensures Refines(r, s)
  {
    JobsView(s, jobs);
  }

  lemma JobCreationRefines(r: Request, s: Spec)
    requires WellFormed(s) && r.CreateJob?
    ensures Refines(r, s)
  {
    var jobs := JobsOf(s);
    MapKeys(jobs, r.name);
    if IndexOf(jobs, r.name) < 0 {
      AppendView(jobs, Named(r.name, r.job));
      JobsRefine(r, s, jobs + [Named(r.name, r.job)]);
    }
  }

  lemma JobUpdateRefines(r: Request, s: Spec)
    requires WellFormed(s) && r.UpdateJob?
    ensures Refines(r, s)
  {
    var jobs := JobsOf(s);
    var i := IndexOf(jobs, r.name);
    MapKeys(jobs, r.name);
    if i >= 0 {
      ReplaceView(jobs, i, r.job);
      JobsRefine(r, s, jobs[i := Named(r.name, r.job)]);
    }
  }

  lemma JobRemovalRefines(r: Request, s: Spec)
    requires WellFormed(s) && r.DeleteJob?
    ensures Refines(r, s)
  {
    var jobs := JobsOf(s);
    var i := IndexOf(jobs, r.name);
    MapKeys(jobs, r.name);
    if i >= 0 {
      var rest := Removed(jobs, i);
      assert Unique(rest) && ToMap(rest) == ToMap(jobs) - {r.name} by { RemoveView(jobs, i); }
      JobLeaves(r, s, View(s), i);
      JobsRefine(r, s, rest);
    }
  }

  lemma JobLeaves(r: Request, s: Spec, st: Store, i: nat)
    requires r.DeleteJob? && i < |JobsOf(s)| && IndexOf(JobsOf(s), r.name) == i && r.name in st.jobs
    ensures Apply(r, s) == Ok(WithJobs(s, Removed(JobsOf(s), i)))
    ensures Meaning(r, st) == Ok(st.(jobs := st.jobs - {r.name}))
  {}

  lemma EditsRefine(r: Request, s: Spec)
    requires WellFormed(s)
    ensures Refines(r, s)
  {
    if r.CreateServer? || r.UpdateServer? {
      ServerEditsRefine(r, s);
    } else if r.DeleteServer? {
      ServerRemovalRefines(r, s);
    } else if r.CreateJob? {
      JobCreationRefines(r, s);
    } else if r.UpdateJob? {
      JobUpdateRefines(r, s);
    } else {
      JobRemovalRefines(r, s);
    }
  }

  /** A server leaves the store only by its own deletion, and never while a job refers to it. */
  lemma RemovedServersAreUnused(r: Request, st: Store, name: string)
    requires Meaning(r, st).Ok? && st.servers.Some? && name in st.servers.value
    requires Meaning(r, st).value.servers.None? || name !in Meaning(r, st).value.servers.value
    ensures r == DeleteServer(name)
    ensures forall n :: n in st.jobs && st.jobs[n].pxfJob.Some? ==> st.jobs[n].pxfJob.value.server != name
  {
    forall n | n in st.jobs && st.jobs[n].pxfJob.Some? ensures st.jobs[n].pxfJob.value.server != name {
      assert n !in Users(st.jobs, name);
    }
  }

  // ------------------------------------------------------ referential integrity

  ghost predicate Defined(st: Store, server: string) {
    st.servers.Some? && server in st.servers.value
  }

  /** Every server that a job refers to is defined. */
  ghost predicate Integrity(st: Store) {
    forall n :: n in st.jobs && st.jobs[n].pxfJob.Some? ==> Defined(st, st.jobs[n].pxfJob.value.server)
  }

  /** The request writes a job that refers to a server the store does not define. */
  ghost predicate Dangles(r: Request, st: Store) {
    (r.CreateJob? || r.UpdateJob?) && r.job.pxfJob.Some? && !Defined(st, r.job.pxfJob.value.server)
  }

  lemma JobWriteKeepsIntegrity(r: Request, st: Store)
    requires Integrity(st) && (r.CreateJob? || r.UpdateJob?) && Meaning(r, st).Ok?
    ensures Integrity(Meaning(r, st).value) <==> !Dangles(r, st)
  {
    var after := Meaning(r, st).value;
    assert after.jobs[r.name] == r.job;
    forall n | n in after.jobs && n != r.name && after.jobs[n].pxfJob.Some?
      ensures Defined(after, after.jobs[n].pxfJob.value.server)
    {
      assert st.jobs[n] == after.jobs[n];
    }
  }

  /** Deletions and server edits keep references intact; a job write does exactly when
      the server it names is defined in the version it replaces, which its closure does not check. */
  lemma IntegrityKeptExactly(r: Request, st: Store)
    requires Integrity(st) && Meaning(r, st).Ok?
    ensures Integrity(Meaning(r, st).value) <==> !Dangles(r, st)
  {
    var after := Meaning(r, st).value;
    if r.CreateJob? || r.UpdateJob? {
      JobWriteKeepsIntegrity(r, st);
    } else {
      forall n | n in after.jobs && after.jobs[n].pxfJob.Some?
        ensures Defined(after, after.jobs[n].pxfJob.value.server)
      {
        var server := after.jobs[n].pxfJob.value.server;
        assert n in st.jobs && Defined(st, server);
        assert n in Users(st.jobs, server);
      }
    }
  }
}
