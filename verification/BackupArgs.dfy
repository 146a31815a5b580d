/** Backup and restore options, and the argument list of gpbackup.

    An argument list is a sequence of sections, one for each flag; the empty
    ones print nothing. */
module BackupArgs {
  import opened Basics
  import opened Decimal
  import opened CommandLine

  datatype GpbackupOptions = GpbackupOptions(
    compressionLevel: int, compressionType: string, singleDataFile: bool, copyQueueSize: int, jobs: int,
    incremental: bool, leafPartitionData: bool, withStats: Option<bool>, withoutGlobals: bool, noCompression: bool)

  datatype GprestoreOptions = GprestoreOptions(
    jobs: int, createDb: bool, withGlobals: bool, withStats: Option<bool>, runAnalyze: bool, onErrorContinue: bool,
    truncateTable: bool, dataOnly: bool, metadataOnly: bool, resizeCluster: bool)

  /** The backup section of a cluster: destination and tool defaults. */
  datatype BackupSpec = BackupSpec(
    destinationType: string, localPath: string, gpbackup: Option<GpbackupOptions>, gprestore: Option<GprestoreOptions>)

  datatype Cluster = Cluster(backup: Option<BackupSpec>)

  datatype BackupJobOptions = BackupJobOptions(
    jobType: string, databases: seq<string>, gpbackup: Option<GpbackupOptions>, fromTimestamp: string,
    includeSchemas: seq<string>, includeTables: seq<string>, excludeTables: seq<string>)

  datatype RestoreJobOptions = RestoreJobOptions(
    timestamp: string, gprestore: Option<GprestoreOptions>, redirectDb: string, redirectSchema: string,
    includeSchemas: seq<string>, includeTables: seq<string>, excludeTables: seq<string>)

  const NO_BACKUP_OPTIONS := GpbackupOptions(0, "", false, 0, 0, false, false, None, false, false)
  const NO_RESTORE_OPTIONS := GprestoreOptions(0, false, false, None, false, false, false, false, false, false)
  const NO_JOB_OPTIONS := BackupJobOptions("", [], None, "", [], [], [])
  const FULL := "full"
  const INCREMENTAL := "incremental"

  function OrElse<T>(o: Option<T>, default: T): T { if o.Some? then o.value else default }

  // --------------------------------------------------------------- destination

  predicate IsLocal(cluster: Cluster) {
    cluster.backup.Some? && cluster.backup.value.destinationType == "local"
  }

  function LocalDir(cluster: Cluster): string {
    if cluster.backup.Some? && cluster.backup.value.localPath != "" then cluster.backup.value.localPath else "/backups"
  }

  function DestinationItem(cluster: Cluster): Item {
    if IsLocal(cluster) then Item(BackupDir, LocalDir(cluster)) else Item(PluginConfig, "/tmp/s3-config.yaml")
  }

  // ------------------------------------------------------------------ gpbackup

  function GpbackupOrSpec(cluster: Cluster, job: Option<BackupJobOptions>): Option<GpbackupOptions> {
    if job.Some? && job.value.gpbackup.Some? then job.value.gpbackup
    else if cluster.backup.Some? then cluster.backup.value.gpbackup
    else None
  }

  predicate IsEffectivelyIncremental(opts: Option<GpbackupOptions>, job: Option<BackupJobOptions>) {
    (opts.Some? && opts.value.incremental) || (job.Some? && job.value.jobType == INCREMENTAL)
  }

  function EffectiveBackupType(cluster: Cluster, job: Option<BackupJobOptions>): string {
    if IsEffectivelyIncremental(GpbackupOrSpec(cluster, job), job) then INCREMENTAL else FULL
  }

  function FirstDatabase(databases: seq<string>): string {
    if databases == [] then "" else databases[0]
  }

  function WithDefaultDatabase(job: Option<BackupJobOptions>): BackupJobOptions {
    var j := OrElse(job, NO_JOB_OPTIONS);
    if j.databases != [] then j else j.(databases := ["postgres"])
  }

  // ------------------------------------------------------------------ sections

  function HeadSections(cluster: Cluster, db: string): seq<Section> {
    [Section(DestinationItem(cluster).flag, [DestinationItem(cluster).value]), Section(DbName, [db])]
  }

  function CompressionSections(o: GpbackupOptions): seq<Section> {
    [Section(NoCompression, Given(o.noCompression, "")),
     Section(CompressionLevel, Given(!o.noCompression && o.compressionLevel > 0, Itoa(o.compressionLevel))),
     Section(CompressionType, Given(!o.noCompression && o.compressionType != "", o.compressionType))]
  }

  function DataFileSections(o: GpbackupOptions): seq<Section> {
    [Section(SingleDataFile, Given(o.singleDataFile, "")),
     Section(CopyQueueSize, Given(o.singleDataFile && o.copyQueueSize > 0, Itoa(o.copyQueueSize))),
     Section(Jobs, Given(!o.singleDataFile && o.jobs > 0, Itoa(o.jobs)))]
  }

  /** The incremental flags, with leaf partition data switched on or off. */
  function IncrementalSections(incremental: bool, leaf: bool, fromTimestamp: string): seq<Section> {
    [Section(Incremental, Given(incremental, "")),
     Section(LeafPartitionData, Given(leaf, "")),
     Section(FromTimestamp, Given(incremental && fromTimestamp != "", fromTimestamp))]
  }

  function TailSections(o: GpbackupOptions, job: BackupJobOptions): seq<Section> {
    [Section(WithStats, Given(OrElse(o.withStats, true), "")),
     Section(WithoutGlobals, Given(o.withoutGlobals, "")),
     Section(IncludeSchema, NonEmpty(job.includeSchemas)),
     Section(IncludeTable, NonEmpty(job.includeTables)),
     Section(ExcludeTable, NonEmpty(job.excludeTables))]
  }

  function BackupSections(cluster: Cluster, o: GpbackupOptions, job: BackupJobOptions): seq<Section> {
    var incremental := IsEffectivelyIncremental(Some(o), Some(job));
    HeadSections(cluster, FirstDatabase(job.databases)) + CompressionSections(o) + DataFileSections(o)
    + IncrementalSections(incremental, incremental || o.leafPartitionData, job.fromTimestamp)
    + TailSections(o, job)
  }

  function BackupItems(cluster: Cluster, o: GpbackupOptions, job: BackupJobOptions): seq<Item> {
    Flatten(BackupSections(cluster, o, job))
  }

  // ------------------------------------------------------------------ building

  /** Sections added one by one are sections added together. */
  lemma ThreeMore(front: seq<Section>, a: Section, b: Section, c: Section)
    ensures front + [a] + [b] + [c] == front + [a, b, c]
  {}

  method DestinationArgs(cluster: Cluster) returns (args: seq<string>)
    ensures args == SectionArgs([Section(DestinationItem(cluster).flag, [DestinationItem(cluster).value])])
  {
    var d := DestinationItem(cluster);
    args := AppendGiven([], d.flag, d.value, true, []);
    assert [] + [Section(d.flag, [d.value])] == [Section(d.flag, [d.value])];
  }

  method AppendCompressionArgs(args: seq<string>, o: GpbackupOptions, ghost secs: seq<Section>)
    returns (out: seq<string>)
    requires args == SectionArgs(secs)
    ensures out == SectionArgs(secs + CompressionSections(o))
  {
    ghost var a, b, c := CompressionSections(o)[0], CompressionSections(o)[1], CompressionSections(o)[2];
    ThreeMore(secs, a, b, c);
    out := AppendSwitch(args, NoCompression, o.noCompression, secs);
    if o.noCompression {
      EmptySection(secs + [a], CompressionLevel);
      EmptySection(secs + [a] + [b], CompressionType);
      return;
    }
    out := AppendGiven(out, CompressionLevel, Itoa(o.compressionLevel), o.compressionLevel > 0, secs + [a]);
    out := AppendGiven(out, CompressionType, o.compressionType, o.compressionType != "", secs + [a] + [b]);
  }

  lemma EmptySection(secs: seq<Section>, f: Flag)
    ensures SectionArgs(secs + [Section(f, [])]) == SectionArgs(secs)
  {
    AddSection(secs, Section(f, []));
  }

  method AppendDataFileArgs(args: seq<string>, o: GpbackupOptions, ghost secs: seq<Section>)
    returns (out: seq<string>)
    requires args == SectionArgs(secs)
    ensures out == SectionArgs(secs + DataFileSections(o))
  {
    ghost var a, b, c := DataFileSections(o)[0], DataFileSections(o)[1], DataFileSections(o)[2];
    ThreeMore(secs, a, b, c);
    if o.singleDataFile {
      out := AppendSwitch(args, SingleDataFile, true, secs);
      out := AppendGiven(out, CopyQueueSize, Itoa(o.copyQueueSize), o.copyQueueSize > 0, secs + [a]);
      EmptySection(secs + [a] + [b], Jobs);
      return;
    }
    EmptySection(secs, SingleDataFile);
    EmptySection(secs + [a], CopyQueueSize);
    out := AppendGiven(args, Jobs, Itoa(o.jobs), o.jobs > 0, secs + [a] + [b]);
  }

  method AppendIncrementalArgs(args: seq<string>, incremental: bool, fromTimestamp: string, ghost secs: seq<Section>)
    returns (out: seq<string>)
    requires args == SectionArgs(secs)
    ensures out == SectionArgs(secs + IncrementalSections(incremental, incremental, fromTimestamp))
  {
    ghost var all := IncrementalSections(incremental, incremental, fromTimestamp);
    ghost var a, b := all[0], all[1];
    ThreeMore(secs, a, b, all[2]);
    if !incremental {
      EmptySection(secs, Incremental);
      EmptySection(secs + [a], LeafPartitionData);
      EmptySection(secs + [a] + [b], FromTimestamp);
      return args;
    }
    out := AppendSwitch(args, Incremental, true, secs);
    out := AppendSwitch(out, LeafPartitionData, true, secs + [a]);
    out := AppendGiven(out, FromTimestamp, fromTimestamp, fromTimestamp != "", secs + [a] + [b]);
  }

  /** Leaf partition data on request, unless the incremental flags have brought it already. */
  method AppendLeafPartitionDataArgs(
    args: seq<string>, leaf: bool, incremental: bool, fromTimestamp: string, ghost secs: seq<Section>)
    returns (out: seq<string>)
    requires args == SectionArgs(secs + IncrementalSections(incremental, incremental, fromTimestamp))
    ensures out == SectionArgs(secs + IncrementalSections(incremental, incremental || leaf, fromTimestamp))
  {
    if !leaf || incremental { return args; }
    LoneLeaf(secs, false, fromTimestamp);
    LoneLeaf(secs, true, fromTimestamp);
    out := AppendSwitch(args, LeafPartitionData, true, secs);
  }

  lemma LoneLeaf(secs: seq<Section>, leaf: bool, fromTimestamp: string)
    ensures SectionArgs(secs + IncrementalSections(false, leaf, fromTimestamp)) ==
            SectionArgs(secs + [Section(LeafPartitionData, Given(leaf, ""))])
    ensures !leaf ==> SectionArgs(secs + IncrementalSections(false, leaf, fromTimestamp)) == SectionArgs(secs)
  {
    var a, b, c := Section(Incremental, []), Section(LeafPartitionData, Given(leaf, "")), Section(FromTimestamp, []);
    ThreeMore(secs, a, b, c);
    EmptySection(secs, Incremental);
    AddSection(secs + [a], b);
    AddSection(secs, b);
    EmptySection(secs + [a] + [b], FromTimestamp);
    if !leaf { EmptySection(secs, LeafPartitionData); }
  }

  method AppendTail(args: seq<string>, o: GpbackupOptions, job: BackupJobOptions, ghost secs: seq<Section>)
    returns (out: seq<string>)
    requires args == SectionArgs(secs)
    ensures out == SectionArgs(secs + TailSections(o, job))
  {
    ghost var a, b := Section(WithStats, Given(OrElse(o.withStats, true), "")),
                      Section(WithoutGlobals, Given(o.withoutGlobals, ""));
    out := AppendSwitch(args, WithStats, OrElse(o.withStats, true), secs);
    out := AppendSwitch(out, WithoutGlobals, o.withoutGlobals, secs + [a]);
    out := AppendFilters(out, job, secs + [a] + [b]);
    FilterSectionsLast(secs, a, b, FilterSections(job));
  }

  lemma FilterSectionsLast(secs: seq<Section>, a: Section, b: Section, filters: seq<Section>)
    requires |filters| == 3
    ensures secs + [a] + [b] + filters == secs + [a, b, filters[0], filters[1], filters[2]]
  {}

  function FilterSections(job: BackupJobOptions): seq<Section> {
    [Section(IncludeSchema, NonEmpty(job.includeSchemas)), Section(IncludeTable, NonEmpty(job.includeTables)),
     Section(ExcludeTable, NonEmpty(job.excludeTables))]
  }

  method AppendFilters(args: seq<string>, job: BackupJobOptions, ghost secs: seq<Section>)
    returns (out: seq<string>)
    requires args == SectionArgs(secs)
    ensures out == SectionArgs(secs + FilterSections(job))
  {
    ghost var a, b := Section(IncludeSchema, NonEmpty(job.includeSchemas)),
                      Section(IncludeTable, NonEmpty(job.includeTables));
    out := AppendRepeatedFlag(args, IncludeSchema, job.includeSchemas, secs);
    out := AppendRepeatedFlag(out, IncludeTable, job.includeTables, secs + [a]);
    out := AppendRepeatedFlag(out, ExcludeTable, job.excludeTables, secs + [a] + [b]);
    ThreeMore(secs, a, b, Section(ExcludeTable, NonEmpty(job.excludeTables)));
  }

  /** gpbackup needs a database; without one there is no argument list. */
  method BuildGpbackupArgs(cluster: Cluster, opts: Option<GpbackupOptions>, job: Option<BackupJobOptions>)
    returns (args: Option<seq<string>>)
    ensures args.None? <==> job.None? || FirstDatabase(job.value.databases) == ""
    ensures args.Some? ==> args.value == Args(BackupItems(cluster, OrElse(opts, NO_BACKUP_OPTIONS), job.value))
  {
    if job.None? || FirstDatabase(job.value.databases) == "" { return None; }
    var j, o := job.value, OrElse(opts, NO_BACKUP_OPTIONS);
    var db, incremental := FirstDatabase(j.databases), IsEffectivelyIncremental(Some(o), Some(j));
    var out := DestinationArgs(cluster);
    ghost var d := [Section(DestinationItem(cluster).flag, [DestinationItem(cluster).value])];
    out := AppendGiven(out, DbName, db, true, d);
    ghost var secs := HeadSections(cluster, db);
    assert d + [Section(DbName, [db])] == secs;
    out := AppendCompressionArgs(out, o, secs);
    secs := secs + CompressionSections(o);
    out := AppendDataFileArgs(out, o, secs);
    secs := secs + DataFileSections(o);
    out := AppendIncrementalArgs(out, incremental, j.fromTimestamp, secs);
    out := AppendLeafPartitionDataArgs(out, o.leafPartitionData, incremental, j.fromTimestamp, secs);
    secs := secs + IncrementalSections(incremental, incremental || o.leafPartitionData, j.fromTimestamp);
    out := AppendTail(out, o, j, secs);
    return Some(out);
  }

  // -------------------------------------------------------- what gpbackup reads

  /** A positive number, printed; nothing for any other. */
  function Printed(n: int): seq<string> { if n > 0 then [Itoa(n)] else [] }

  /** A local destination has a directory, "/backups" unless the cluster names one; any other has none. */
  function DirectoryOf(cluster: Cluster): seq<string> {
    match cluster.backup
    case None => []
    case Some(spec) =>
      if spec.destinationType != "local" then [] else if spec.localPath == "" then ["/backups"] else [spec.localPath]
  }

  /** The effective options of a backup, flag by flag: the values gpbackup must see for each. */
  function EffectiveValues(cluster: Cluster, o: GpbackupOptions, job: BackupJobOptions, f: Flag): seq<string> {
    var incremental := o.incremental || job.jobType == "incremental";
    match f
    case BackupDir => DirectoryOf(cluster)
    case PluginConfig => if DirectoryOf(cluster) == [] then ["/tmp/s3-config.yaml"] else []
    case DbName => [FirstDatabase(job.databases)]
    case NoCompression => Given(o.noCompression, "")
    case CompressionLevel => if o.noCompression then [] else Printed(o.compressionLevel)
    case CompressionType => Given(o.compressionType != "" && !o.noCompression, o.compressionType)
    case SingleDataFile => Given(o.singleDataFile, "")
    case CopyQueueSize => if o.singleDataFile then Printed(o.copyQueueSize) else []
    case Jobs => if o.singleDataFile then [] else Printed(o.jobs)
    case Incremental => Given(incremental, "")
    case LeafPartitionData => Given(incremental || o.leafPartitionData, "")
    case FromTimestamp => Given(incremental && job.fromTimestamp != "", job.fromTimestamp)
    case WithStats => Given(o.withStats != Some(false), "")
    case WithoutGlobals => Given(o.withoutGlobals, "")
    case IncludeSchema => NonEmpty(job.includeSchemas)
    case IncludeTable => NonEmpty(job.includeTables)
    case ExcludeTable => NonEmpty(job.excludeTables)
    case _ => []
  }

  /** Where a flag has its section; 16 for a flag that has none. */
  function Place(f: Flag): nat {
    match f
    case BackupDir => 0 case PluginConfig => 0 case DbName => 1
    case NoCompression => 2 case CompressionLevel => 3 case CompressionType => 4
    case SingleDataFile => 5 case CopyQueueSize => 6 case Jobs => 7
    case Incremental => 8 case LeafPartitionData => 9 case FromTimestamp => 10
    case WithStats => 11 case WithoutGlobals => 12
    case IncludeSchema => 13 case IncludeTable => 14 case ExcludeTable => 15
    case _ => 16
  }

  lemma HeadInPlace(cluster: Cluster, db: string)
    ensures InPlace(HeadSections(cluster, db), Place, 0)
  {}

  lemma PartsInPlace(o: GpbackupOptions, job: BackupJobOptions, incremental: bool, leaf: bool)
    ensures InPlace(CompressionSections(o), Place, 2) && InPlace(DataFileSections(o), Place, 5)
    ensures InPlace(IncrementalSections(incremental, leaf, job.fromTimestamp), Place, 8)
  {}

  lemma TailInPlace(o: GpbackupOptions, job: BackupJobOptions)
    ensures InPlace(TailSections(o, job), Place, 11)
  {}

  lemma SectionsInPlace(cluster: Cluster, o: GpbackupOptions, job: BackupJobOptions)
    ensures |BackupSections(cluster, o, job)| == 16 && InPlace(BackupSections(cluster, o, job), Place, 0)
  {
    var incremental := IsEffectivelyIncremental(Some(o), Some(job));
    var leaf := incremental || o.leafPartitionData;
    HeadInPlace(cluster, FirstDatabase(job.databases));
    PartsInPlace(o, job, incremental, leaf);
    TailInPlace(o, job);
    var a := HeadSections(cluster, FirstDatabase(job.databases));
    var b := a + CompressionSections(o);
    var c := b + DataFileSections(o);
    var d := c + IncrementalSections(incremental, leaf, job.fromTimestamp);
    InPlaceConcat(a, CompressionSections(o), Place, 0);
    InPlaceConcat(b, DataFileSections(o), Place, 0);
    InPlaceConcat(c, IncrementalSections(incremental, leaf, job.fromTimestamp), Place, 0);
    InPlaceConcat(d, TailSections(o, job), Place, 0);
  }

  /** The section at a flag's place is that flag's, or the flag has no value. */
  ghost predicate AtPlace(cluster: Cluster, o: GpbackupOptions, job: BackupJobOptions, f: Flag) {
    var secs := BackupSections(cluster, o, job);
    EffectiveValues(cluster, o, job, f) ==
      if Place(f) < |secs| && secs[Place(f)].flag == f then secs[Place(f)].values else []
  }

  lemma HeadAtPlace(cluster: Cluster, o: GpbackupOptions, job: BackupJobOptions, f: Flag)
    requires Place(f) < 2
    ensures AtPlace(cluster, o, job, f)
  {
    assert BackupSections(cluster, o, job)[Place(f)] == HeadSections(cluster, FirstDatabase(job.databases))[Place(f)];
  }

  lemma CompressionAtPlace(cluster: Cluster, o: GpbackupOptions, job: BackupJobOptions, f: Flag)
    requires 2 <= Place(f) < 5
    ensures AtPlace(cluster, o, job, f)
  {
    assert BackupSections(cluster, o, job)[Place(f)] == CompressionSections(o)[Place(f) - 2];
  }

  lemma DataFileAtPlace(cluster: Cluster, o: GpbackupOptions, job: BackupJobOptions, f: Flag)
    requires 5 <= Place(f) < 8
    ensures AtPlace(cluster, o, job, f)
  {
    assert BackupSections(cluster, o, job)[Place(f)] == DataFileSections(o)[Place(f) - 5];
  }

  lemma LateAtPlace(cluster: Cluster, o: GpbackupOptions, job: BackupJobOptions, f: Flag)
    requires Place(f) >= 8
    ensures AtPlace(cluster, o, job, f)
  {
    var secs, p := BackupSections(cluster, o, job), Place(f);
    var incremental := IsEffectivelyIncremental(Some(o), Some(job));
    var more := IncrementalSections(incremental, incremental || o.leafPartitionData, job.fromTimestamp);
    if p < 11 { assert secs[p] == more[p - 8]; }
    else if p < 16 { assert secs[p] == TailSections(o, job)[p - 11]; }
  }

  /** For every flag, gpbackup reads what the effective options say. */
  lemma BackupValues(cluster: Cluster, o: GpbackupOptions, job: BackupJobOptions, f: Flag)
    ensures Values(BackupItems(cluster, o, job), f) == EffectiveValues(cluster, o, job, f)
  {
    SectionsInPlace(cluster, o, job);
    if Place(f) < 2 { HeadAtPlace(cluster, o, job, f); }
    else if Place(f) < 5 { CompressionAtPlace(cluster, o, job, f); }
    else if Place(f) < 8 { DataFileAtPlace(cluster, o, job, f); }
    else { LateAtPlace(cluster, o, job, f); }
    ValuesInPlace(BackupSections(cluster, o, job), Place, f);
  }

  lemma BackupItemsOk(cluster: Cluster, o: GpbackupOptions, job: BackupJobOptions)
    ensures ItemsOk(BackupItems(cluster, o, job))
  {
    var secs := BackupSections(cluster, o, job);
    PartsOk(cluster, o, job, FirstDatabase(job.databases), IsEffectivelyIncremental(Some(o), Some(job)));
    FlattenOk(secs);
  }

  lemma PartsOk(cluster: Cluster, o: GpbackupOptions, job: BackupJobOptions, db: string, incremental: bool)
    ensures forall s :: s in HeadSections(cluster, db) ==> SectionOk(s)
    ensures forall s :: s in CompressionSections(o) + DataFileSections(o) ==> SectionOk(s)
    ensures forall s, leaf :: s in IncrementalSections(incremental, leaf, job.fromTimestamp) ==> SectionOk(s)
    ensures forall s :: s in TailSections(o, job) ==> SectionOk(s)
  {}
}
