/** Backup Jobs: the label, the argument list and what gpbackup reads from it,
    for on-demand requests, direct builder calls and the scheduled CronJob. */
module BackupJobs {
  import opened Basics
  import opened Decimal
  import opened CommandLine
  import opened BackupArgs

  datatype GpbackupRequest = GpbackupRequest(
    compressionLevel: int, compressionType: string, jobs: int, singleDataFile: bool, copyQueueSize: int,
    incremental: bool, fromTimestamp: string, includeSchemas: seq<string>, excludeTables: seq<string>,
    leafPartitionData: bool, withStats: Option<bool>, withoutGlobals: bool, noCompression: bool)

  datatype CreateBackupRequest = CreateBackupRequest(
    jobType: string, databases: seq<string>, options: Option<GpbackupRequest>)

  /** A Job: its backup-type label and the arguments of the tool. */
  datatype Job = Job(typeLabel: string, args: seq<string>)

  function OrInt(v: int, fallback: int): int { if v != 0 then v else fallback }

  function OrString(v: string, fallback: string): string { if v != "" then v else fallback }

  /** Request options over the cluster's defaults. */
  function MergeGpbackupOptions(cluster: Cluster, gp: GpbackupRequest): GpbackupOptions {
    var base := OrElse(if cluster.backup.Some? then cluster.backup.value.gpbackup else None, NO_BACKUP_OPTIONS);
    GpbackupOptions(
      OrInt(gp.compressionLevel, base.compressionLevel),
      OrString(gp.compressionType, base.compressionType),
      gp.singleDataFile,
      OrInt(gp.copyQueueSize, base.copyQueueSize),
      OrInt(gp.jobs, base.jobs),
      gp.incremental,
      gp.leafPartitionData,
      if gp.withStats.Some? then gp.withStats else base.withStats,
      gp.withoutGlobals,
      gp.noCompression)
  }

  function BuildBackupJobOptions(cluster: Cluster, req: CreateBackupRequest): BackupJobOptions {
    var jobType := OrString(req.jobType, FULL);
    if req.options.None? then NO_JOB_OPTIONS.(jobType := jobType, databases := req.databases)
    else
      var gp := req.options.value;
      BackupJobOptions(jobType, req.databases, Some(MergeGpbackupOptions(cluster, gp)), gp.fromTimestamp,
                       gp.includeSchemas, [], gp.excludeTables)
  }

  method BuildBackupJob(cluster: Cluster, opts: Option<BackupJobOptions>) returns (job: Option<Job>)
    ensures job.None? <==> opts.Some? && opts.value.databases != [] && opts.value.databases[0] == ""
    ensures job.Some? ==> JobFor(cluster, WithDefaultDatabase(opts), GpbackupOrSpec(cluster, opts), job.value)
  {
    var o := WithDefaultDatabase(opts);
    var typeLabel := EffectiveBackupType(cluster, Some(o));
    var gp := GpbackupOrSpec(cluster, Some(o));
    var args := BuildGpbackupArgs(cluster, gp, Some(o));
    if args.None? { return None; }
    LabelAgrees(cluster, gp, o);
    return Some(Job(typeLabel, args.value));
  }

  /** The scheduled Job: the label is computed without request options, the arguments with the default database. */
  method BuildBackupCronJob(cluster: Cluster, schedule: string) returns (job: Option<Job>)
    ensures job.None? <==> cluster.backup.None? || schedule == ""
    ensures job.Some? ==> JobFor(cluster, WithDefaultDatabase(None), cluster.backup.value.gpbackup, job.value)
  {
    if cluster.backup.None? || schedule == "" { return None; }
    var typeLabel := EffectiveBackupType(cluster, None);
    var o := WithDefaultDatabase(None);
    var args := BuildGpbackupArgs(cluster, cluster.backup.value.gpbackup, Some(o));
    NoJobIsNotIncremental();
    LabelAgrees(cluster, cluster.backup.value.gpbackup, o);
    return Some(Job(typeLabel, args.value));
  }

  /** A Job whose arguments say what the effective options say, and whose label
      is "incremental" exactly when gpbackup is told --incremental. */
  ghost predicate JobFor(cluster: Cluster, o: BackupJobOptions, gp: Option<GpbackupOptions>, job: Job) {
    var opts := OrElse(gp, NO_BACKUP_OPTIONS);
    var items := BackupItems(cluster, opts, o);
    && job.args == Args(items)
    && (job.typeLabel == if Values(items, Incremental) != [] then "incremental" else "full")
  }

  lemma NoJobIsNotIncremental()
    ensures WithDefaultDatabase(None).jobType != INCREMENTAL && WithDefaultDatabase(None).gpbackup == None
  {}

  lemma LabelAgrees(cluster: Cluster, gp: Option<GpbackupOptions>, o: BackupJobOptions)
    ensures Values(BackupItems(cluster, OrElse(gp, NO_BACKUP_OPTIONS), o), Incremental) != [] <==>
            IsEffectivelyIncremental(gp, Some(o))
  {
    BackupValues(cluster, OrElse(gp, NO_BACKUP_OPTIONS), o, Incremental);
  }

  /** The default database stands in for no databases, and not for an empty first one, which is
      what BuildBackupJob refuses. */
  lemma EmptyFirstDatabaseStays(rest: seq<string>)
    ensures FirstDatabase(WithDefaultDatabase(Some(NO_JOB_OPTIONS.(databases := [""] + rest))).databases) == ""
    ensures FirstDatabase(WithDefaultDatabase(Some(NO_JOB_OPTIONS)).databases) == "postgres"
    ensures FirstDatabase(WithDefaultDatabase(None).databases) == "postgres"
  {}

  // ----------------------------------------------------------- reading arguments

  /** The argument list of gpbackup reads back as exactly the effective options, for every flag. */
  lemma GpbackupArgsReadBack(cluster: Cluster, o: GpbackupOptions, job: BackupJobOptions, f: Flag)
    ensures Read(Args(BackupItems(cluster, o, job))) == Some(BackupItems(cluster, o, job))
    ensures Values(BackupItems(cluster, o, job), f) == EffectiveValues(cluster, o, job, f)
  {
    BackupItemsOk(cluster, o, job);
    ReadArgs(BackupItems(cluster, o, job));
    BackupValues(cluster, o, job, f);
  }

  lemma ExclusiveValues(cluster: Cluster, o: GpbackupOptions, job: BackupJobOptions)
    ensures EffectiveValues(cluster, o, job, SingleDataFile) != [] ==> EffectiveValues(cluster, o, job, Jobs) == []
    ensures EffectiveValues(cluster, o, job, CopyQueueSize) != [] ==>
              EffectiveValues(cluster, o, job, SingleDataFile) != []
    ensures EffectiveValues(cluster, o, job, NoCompression) != [] ==>
              EffectiveValues(cluster, o, job, CompressionLevel) == []
              && EffectiveValues(cluster, o, job, CompressionType) == []
  {}

  /** Parallel jobs never go with a single data file, and the copy queue only goes with it. */
  lemma DataFileExclusion(cluster: Cluster, o: GpbackupOptions, job: BackupJobOptions)
    ensures Values(BackupItems(cluster, o, job), SingleDataFile) != [] ==>
              Values(BackupItems(cluster, o, job), Jobs) == []
    ensures Values(BackupItems(cluster, o, job), CopyQueueSize) != [] ==>
              Values(BackupItems(cluster, o, job), SingleDataFile) != []
  {
    BackupValues(cluster, o, job, SingleDataFile);
    BackupValues(cluster, o, job, Jobs);
    BackupValues(cluster, o, job, CopyQueueSize);
    ExclusiveValues(cluster, o, job);
  }

  /** No compression level or type goes with no compression. */
  lemma CompressionExclusion(cluster: Cluster, o: GpbackupOptions, job: BackupJobOptions)
    ensures Values(BackupItems(cluster, o, job), NoCompression) != [] ==>
              Values(BackupItems(cluster, o, job), CompressionLevel) == []
              && Values(BackupItems(cluster, o, job), CompressionType) == []
  {
    BackupValues(cluster, o, job, NoCompression);
    BackupValues(cluster, o, job, CompressionLevel);
    BackupValues(cluster, o, job, CompressionType);
    ExclusiveValues(cluster, o, job);
  }

  lemma IncrementalValues(cluster: Cluster, o: GpbackupOptions, job: BackupJobOptions)
    ensures |EffectiveValues(cluster, o, job, LeafPartitionData)| <= 1
    ensures EffectiveValues(cluster, o, job, Incremental) != [] ==>
              EffectiveValues(cluster, o, job, LeafPartitionData) == [""]
    ensures EffectiveValues(cluster, o, job, FromTimestamp) != [] ==>
              EffectiveValues(cluster, o, job, Incremental) != []
  {}

  /** Leaf partition data is given at most once and always for an incremental
      backup, and a base timestamp is only given for one. */
  lemma IncrementalRules(cluster: Cluster, o: GpbackupOptions, job: BackupJobOptions)
    ensures |Values(BackupItems(cluster, o, job), LeafPartitionData)| <= 1
    ensures Values(BackupItems(cluster, o, job), Incremental) != [] ==>
              Values(BackupItems(cluster, o, job), LeafPartitionData) == [""]
    ensures Values(BackupItems(cluster, o, job), FromTimestamp) != [] ==>
              Values(BackupItems(cluster, o, job), Incremental) != []
  {
    BackupValues(cluster, o, job, LeafPartitionData);
    BackupValues(cluster, o, job, Incremental);
    BackupValues(cluster, o, job, FromTimestamp);
    IncrementalValues(cluster, o, job);
  }

  lemma HeadValues(cluster: Cluster, o: GpbackupOptions, job: BackupJobOptions)
    ensures EffectiveValues(cluster, o, job, DbName) == [FirstDatabase(job.databases)]
    ensures EffectiveValues(cluster, o, job, PluginConfig) == [] <==> IsLocal(cluster)
    ensures EffectiveValues(cluster, o, job, BackupDir) == if IsLocal(cluster) then [LocalDir(cluster)] else []
  {}

  /** Exactly one destination and exactly one database are given. */
  lemma OneDestination(cluster: Cluster, o: GpbackupOptions, job: BackupJobOptions)
    ensures Values(BackupItems(cluster, o, job), DbName) == [FirstDatabase(job.databases)]
    ensures Values(BackupItems(cluster, o, job), PluginConfig) == [] <==> IsLocal(cluster)
    ensures Values(BackupItems(cluster, o, job), BackupDir) == if IsLocal(cluster) then [LocalDir(cluster)] else []
  {
    BackupValues(cluster, o, job, DbName);
    BackupValues(cluster, o, job, PluginConfig);
    BackupValues(cluster, o, job, BackupDir);
    HeadValues(cluster, o, job);
  }

  /** Numbers survive: gpbackup reads the number of jobs that was asked for. */
  lemma JobsSurvive(cluster: Cluster, o: GpbackupOptions, job: BackupJobOptions)
    requires !o.singleDataFile && o.jobs > 0
    ensures |Values(BackupItems(cluster, o, job), Jobs)| == 1
    ensures Atoi(Values(BackupItems(cluster, o, job), Jobs)[0]) == Some(o.jobs)
  {
    BackupValues(cluster, o, job, Jobs);
    ItoaRoundTrip(o.jobs);
  }

  /** Through the API: the backup runs incrementally exactly when the request type
      says so, or the request options do, or there are none and the cluster's do. */
  lemma RequestDecidesIncremental(cluster: Cluster, req: CreateBackupRequest)
    ensures var opts := BuildBackupJobOptions(cluster, req);
            EffectiveBackupType(cluster, Some(opts)) == "incremental" <==>
              || req.jobType == "incremental"
              || (req.options.Some? && req.options.value.incremental)
              || (req.options.None? && cluster.backup.Some? && cluster.backup.value.gpbackup.Some?
                  && cluster.backup.value.gpbackup.value.incremental)
  {
    TypesDiffer();
    var opts := BuildBackupJobOptions(cluster, req);
    assert opts.jobType == INCREMENTAL <==> req.jobType == INCREMENTAL;
  }

  // --------------------------------------------------- from a request to the tool

  /** The cluster's own gpbackup options. */
  function Defaults(cluster: Cluster): GpbackupOptions {
    if cluster.backup.Some? && cluster.backup.value.gpbackup.Some? then cluster.backup.value.gpbackup.value
    else GpbackupOptions(0, "", false, 0, 0, false, false, None, false, false)
  }

  /** What the gpbackup of a Job is told. */
  function JobItems(cluster: Cluster, opts: Option<BackupJobOptions>): seq<Item> {
    BackupItems(cluster, OrElse(GpbackupOrSpec(cluster, opts), NO_BACKUP_OPTIONS), WithDefaultDatabase(opts))
  }

  function RequestItems(cluster: Cluster, req: CreateBackupRequest): seq<Item> {
    JobItems(cluster, Some(BuildBackupJobOptions(cluster, req)))
  }

  /** What a request makes gpbackup read.  Without options it is the cluster's own.  With options,
      numbers and the compression type fall back on the cluster's where the request has none, and so
      does the choice of statistics; switches, filters and the base timestamp are the request's. */
  function RequestedValues(cluster: Cluster, req: CreateBackupRequest, f: Flag): seq<string> {
    match req.options
    case None => DefaultValues(cluster, Defaults(cluster), req, f)
    case Some(gp) => OptionValues(cluster, gp, Defaults(cluster), req, f)
  }

  function RequestedDatabase(req: CreateBackupRequest): string {
    if req.databases == [] then "postgres" else req.databases[0]
  }

  function DefaultValues(cluster: Cluster, base: GpbackupOptions, req: CreateBackupRequest, f: Flag): seq<string> {
    var incremental := base.incremental || req.jobType == "incremental";
    match f
    case BackupDir => DirectoryOf(cluster)
    case PluginConfig => if DirectoryOf(cluster) == [] then ["/tmp/s3-config.yaml"] else []
    case DbName => [RequestedDatabase(req)]
    case NoCompression => Given(base.noCompression, "")
    case CompressionLevel => if base.noCompression then [] else Printed(base.compressionLevel)
    case CompressionType => Given(base.compressionType != "" && !base.noCompression, base.compressionType)
    case SingleDataFile => Given(base.singleDataFile, "")
    case CopyQueueSize => if base.singleDataFile then Printed(base.copyQueueSize) else []
    case Jobs => if base.singleDataFile then [] else Printed(base.jobs)
    case Incremental => Given(incremental, "")
    case LeafPartitionData => Given(incremental || base.leafPartitionData, "")
    case WithStats => Given(base.withStats != Some(false), "")
    case WithoutGlobals => Given(base.withoutGlobals, "")
    case _ => []
  }

  function OptionValues(cluster: Cluster, gp: GpbackupRequest, base: GpbackupOptions, req: CreateBackupRequest, f: Flag)
    : seq<string>
  {
    var incremental := gp.incremental || req.jobType == "incremental";
    match f
    case BackupDir => DirectoryOf(cluster)
    case PluginConfig => if DirectoryOf(cluster) == [] then ["/tmp/s3-config.yaml"] else []
    case DbName => [RequestedDatabase(req)]
    case NoCompression => Given(gp.noCompression, "")
    case CompressionLevel =>
      if gp.noCompression then []
      else Printed(if gp.compressionLevel == 0 then base.compressionLevel else gp.compressionLevel)
    case CompressionType =>
      var kind := if gp.compressionType == "" then base.compressionType else gp.compressionType;
      Given(kind != "" && !gp.noCompression, kind)
    case SingleDataFile => Given(gp.singleDataFile, "")
    case CopyQueueSize =>
      if gp.singleDataFile then Printed(if gp.copyQueueSize == 0 then base.copyQueueSize else gp.copyQueueSize) else []
    case Jobs => if gp.singleDataFile then [] else Printed(if gp.jobs == 0 then base.jobs else gp.jobs)
    case Incremental => Given(incremental, "")
    case LeafPartitionData => Given(incremental || gp.leafPartitionData, "")
    case FromTimestamp => Given(incremental && gp.fromTimestamp != "", gp.fromTimestamp)
    case WithStats => Given((if gp.withStats == None then base.withStats else gp.withStats) != Some(false), "")
    case WithoutGlobals => Given(gp.withoutGlobals, "")
    case IncludeSchema => NonEmpty(gp.includeSchemas)
    case ExcludeTable => NonEmpty(gp.excludeTables)
    case _ => []
  }

  lemma MergedValues(cluster: Cluster, req: CreateBackupRequest, o: GpbackupOptions, job: BackupJobOptions, f: Flag)
    requires req.options.Some? && o == MergeGpbackupOptions(cluster, req.options.value)
    requires job == WithDefaultDatabase(Some(BuildBackupJobOptions(cluster, req)))
    ensures EffectiveValues(cluster, o, job, f) == OptionValues(cluster, req.options.value, Defaults(cluster), req, f)
  {
    TypesDiffer();
  }

  lemma UnmergedValues(cluster: Cluster, req: CreateBackupRequest, job: BackupJobOptions, f: Flag)
    requires req.options.None? && job == WithDefaultDatabase(Some(BuildBackupJobOptions(cluster, req)))
    ensures EffectiveValues(cluster, Defaults(cluster), job, f) == DefaultValues(cluster, Defaults(cluster), req, f)
  {
    TypesDiffer();
  }

  /** Through the request merge, gpbackup reads for every flag what was requested. */
  lemma RequestReadBack(cluster: Cluster, req: CreateBackupRequest, f: Flag)
    ensures Values(RequestItems(cluster, req), f) == RequestedValues(cluster, req, f)
  {
    var opts := BuildBackupJobOptions(cluster, req);
    var o, job := OrElse(GpbackupOrSpec(cluster, Some(opts)), NO_BACKUP_OPTIONS), WithDefaultDatabase(Some(opts));
    BackupValues(cluster, o, job, f);
    if req.options.Some? {
      MergedValues(cluster, req, o, job, f);
    } else {
      UnmergedValues(cluster, req, job, f);
    }
  }

  /** A cluster without options of its own backs up fully, with statistics, and with nothing else. */
  lemma BareBackup(cluster: Cluster, req: CreateBackupRequest, f: Flag)
    requires cluster.backup == None && req.options == None && req.jobType == "full"
    ensures Values(RequestItems(cluster, req), f) ==
            if f == PluginConfig then ["/tmp/s3-config.yaml"]
            else if f == DbName then [RequestedDatabase(req)]
            else if f == WithStats then [""] else []
  {
    RequestReadBack(cluster, req, f);
    BareValues(cluster, req, f);
  }

  lemma BareValues(cluster: Cluster, req: CreateBackupRequest, f: Flag)
    requires cluster.backup == None && req.jobType == "full"
    ensures DefaultValues(cluster, Defaults(cluster), req, f) ==
            if f == PluginConfig then ["/tmp/s3-config.yaml"]
            else if f == DbName then [RequestedDatabase(req)]
            else if f == WithStats then [""] else []
  {
    assert req.jobType != "incremental" by { TypesDiffer(); }
  }

  lemma TypesDiffer()
    ensures FULL != INCREMENTAL && INCREMENTAL != ""
  {
    assert |FULL| == 4 && |INCREMENTAL| == 11;
  }
}
