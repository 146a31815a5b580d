/** The gprestore invocation of a restore Job, from the API request down to the
    shell text and the exit codes that are tolerated. */
module RestoreArgs {
  import opened Basics
  import opened Decimal
  import opened CommandLine
  import opened BackupArgs
  import BackupJobs
  import Shell

  datatype GprestoreRequest = GprestoreRequest(
    options: GprestoreOptions, redirectDb: string, redirectSchema: string,
    includeSchemas: seq<string>, includeTables: seq<string>, excludeTables: seq<string>)

  const NO_RESTORE_JOB := RestoreJobOptions("", None, "", "", [], [], [])

  // ------------------------------------------------------------ gprestore items

  /** Statistics are restored only when asked for, and never beside --run-analyze. */
  predicate EffectiveWithStats(o: GprestoreOptions) { OrElse(o.withStats, false) && !o.runAnalyze }

  function BoolFlags(o: GprestoreOptions): seq<(bool, Flag)> {
    [(o.createDb, CreateDb), (o.withGlobals, WithGlobals), (EffectiveWithStats(o), WithStats),
     (o.runAnalyze, RunAnalyze), (o.onErrorContinue, OnErrorContinue), (o.truncateTable, TruncateTable),
     (o.dataOnly, DataOnly), (o.metadataOnly, MetadataOnly), (o.resizeCluster, ResizeCluster)]
  }

  function SwitchSections(flags: seq<(bool, Flag)>): seq<Section> {
    seq(|flags|, i requires 0 <= i < |flags| => Section(flags[i].1, Given(flags[i].0, "")))
  }

  function FrontSections(cluster: Cluster, o: GprestoreOptions, job: RestoreJobOptions): seq<Section> {
    [Section(DestinationItem(cluster).flag, [DestinationItem(cluster).value]),
     Section(Timestamp, Given(job.timestamp != "", job.timestamp)),
     Section(Jobs, Given(o.jobs > 0, Itoa(o.jobs)))]
  }

  function IncludeSection(job: RestoreJobOptions): Section {
    if job.includeTables != [] then Section(IncludeTable, NonEmpty(job.includeTables))
    else Section(IncludeSchema, NonEmpty(job.includeSchemas))
  }

  function TailSections(job: RestoreJobOptions): seq<Section> {
    [Section(RedirectDb, Given(job.redirectDb != "", job.redirectDb)),
     Section(RedirectSchema, Given(job.redirectSchema != "", job.redirectSchema)),
     IncludeSection(job),
     Section(ExcludeTable, NonEmpty(job.excludeTables))]
  }

  function RestoreSections(cluster: Cluster, o: GprestoreOptions, job: RestoreJobOptions): seq<Section> {
    FrontSections(cluster, o, job) + SwitchSections(BoolFlags(o)) + TailSections(job)
  }

  function RestoreItems(cluster: Cluster, o: GprestoreOptions, job: RestoreJobOptions): seq<Item> {
    Flatten(RestoreSections(cluster, o, job))
  }

  // ------------------------------------------------------------------ building

  /** Appends the switches that are on, in the given order. */
  method AppendGprestoreBoolFlags(args: seq<string>, flags: seq<(bool, Flag)>, ghost secs: seq<Section>)
    returns (out: seq<string>)
    requires args == SectionArgs(secs)
    requires forall i :: 0 <= i < |flags| ==> !TakesValue(flags[i].1)
    ensures out == SectionArgs(secs + SwitchSections(flags))
  {
    out := args;
    ghost var done := secs;
    for k := 0 to |flags|
      invariant done == secs + SwitchSections(flags[..k])
      invariant out == SectionArgs(done)
    {
      out := AppendSwitch(out, flags[k].1, flags[k].0, done);
      SwitchSectionsSnoc(flags, k);
      done := done + [Section(flags[k].1, Given(flags[k].0, ""))];
    }
    assert flags[..|flags|] == flags;
  }

  lemma SwitchSectionsSnoc(flags: seq<(bool, Flag)>, k: nat)
    requires k < |flags|
    ensures SwitchSections(flags[..k + 1]) ==
            SwitchSections(flags[..k]) + [Section(flags[k].1, Given(flags[k].0, ""))]
  {}

  lemma SwitchesTakeNoValue(o: GprestoreOptions)
    ensures forall i :: 0 <= i < |BoolFlags(o)| ==> !TakesValue(BoolFlags(o)[i].1)
  {}

  method BuildGprestoreArgs(cluster: Cluster, opts: Option<GprestoreOptions>, jobOpts: Option<RestoreJobOptions>)
    returns (args: seq<string>)
    ensures args == Args(RestoreItems(cluster, OrElse(opts, NO_RESTORE_OPTIONS), OrElse(jobOpts, NO_RESTORE_JOB)))
  {
    var o, job := OrElse(opts, NO_RESTORE_OPTIONS), OrElse(jobOpts, NO_RESTORE_JOB);
    args := AppendFront(cluster, o, job);
    SwitchesTakeNoValue(o);
    args := AppendGprestoreBoolFlags(args, BoolFlags(o), FrontSections(cluster, o, job));
    args := AppendTail(args, job, FrontSections(cluster, o, job) + SwitchSections(BoolFlags(o)));
  }

  method AppendFront(cluster: Cluster, o: GprestoreOptions, job: RestoreJobOptions) returns (args: seq<string>)
    ensures args == SectionArgs(FrontSections(cluster, o, job))
  {
    args := DestinationArgs(cluster);
    ghost var secs := [Section(DestinationItem(cluster).flag, [DestinationItem(cluster).value])];
    args := AppendGiven(args, Timestamp, job.timestamp, job.timestamp != "", secs);
    secs := secs + [Section(Timestamp, Given(job.timestamp != "", job.timestamp))];
    args := AppendGiven(args, Jobs, Itoa(o.jobs), o.jobs > 0, secs);
    assert secs + [Section(Jobs, Given(o.jobs > 0, Itoa(o.jobs)))] == FrontSections(cluster, o, job);
  }

  method AppendTail(args: seq<string>, job: RestoreJobOptions, ghost front: seq<Section>) returns (out: seq<string>)
    requires args == SectionArgs(front)
    ensures out == SectionArgs(front + TailSections(job))
  {
    ghost var a, b := Section(RedirectDb, Given(job.redirectDb != "", job.redirectDb)),
                      Section(RedirectSchema, Given(job.redirectSchema != "", job.redirectSchema));
    out := AppendGiven(args, RedirectDb, job.redirectDb, job.redirectDb != "", front);
    out := AppendGiven(out, RedirectSchema, job.redirectSchema, job.redirectSchema != "", front + [a]);
    out := AppendFilters(out, job, front + [a] + [b]);
    FourMore(front, a, b, IncludeSection(job), Section(ExcludeTable, NonEmpty(job.excludeTables)));
  }

  lemma FourMore(front: seq<Section>, a: Section, b: Section, c: Section, d: Section)
    ensures front + [a] + [b] + [c] + [d] == front + [a, b, c, d]
  {}

  /** Tables go before schemas: when tables are named, schemas are left out. */
  method AppendFilters(args: seq<string>, job: RestoreJobOptions, ghost front: seq<Section>)
    returns (out: seq<string>)
    requires args == SectionArgs(front)
    ensures out == SectionArgs(front + [IncludeSection(job)] + [Section(ExcludeTable, NonEmpty(job.excludeTables))])
  {
    if |job.includeTables| > 0 { out := AppendRepeatedFlag(args, IncludeTable, job.includeTables, front); }
    else { out := AppendRepeatedFlag(args, IncludeSchema, job.includeSchemas, front); }
    out := AppendRepeatedFlag(out, ExcludeTable, job.excludeTables, front + [IncludeSection(job)]);
  }

  // -------------------------------------------------------- what gprestore reads

  /** The effective options of a restore, flag by flag. */
  function RestoreValues(cluster: Cluster, o: GprestoreOptions, job: RestoreJobOptions, f: Flag): seq<string> {
    match f
    case BackupDir => DirectoryOf(cluster)
    case PluginConfig => if DirectoryOf(cluster) == [] then ["/tmp/s3-config.yaml"] else []
    case Timestamp => Given(job.timestamp != "", job.timestamp)
    case Jobs => Given(o.jobs > 0, Itoa(o.jobs))
    case CreateDb => Given(o.createDb, "")
    case WithGlobals => Given(o.withGlobals, "")
    case WithStats => Given(o.withStats == Some(true) && !o.runAnalyze, "")
    case RunAnalyze => Given(o.runAnalyze, "")
    case OnErrorContinue => Given(o.onErrorContinue, "")
    case TruncateTable => Given(o.truncateTable, "")
    case DataOnly => Given(o.dataOnly, "")
    case MetadataOnly => Given(o.metadataOnly, "")
    case ResizeCluster => Given(o.resizeCluster, "")
    case RedirectDb => Given(job.redirectDb != "", job.redirectDb)
    case RedirectSchema => Given(job.redirectSchema != "", job.redirectSchema)
    case IncludeTable => NonEmpty(job.includeTables)
    case IncludeSchema => if job.includeTables != [] then [] else NonEmpty(job.includeSchemas)
    case ExcludeTable => NonEmpty(job.excludeTables)
    case _ => []
  }

  /** Where a flag has its section; 16 for a flag that has none. */
  function Place(f: Flag): nat {
    match f
    case BackupDir => 0 case PluginConfig => 0 case Timestamp => 1 case Jobs => 2
    case CreateDb => 3 case WithGlobals => 4 case WithStats => 5 case RunAnalyze => 6
    case OnErrorContinue => 7 case TruncateTable => 8 case DataOnly => 9 case MetadataOnly => 10
    case ResizeCluster => 11 case RedirectDb => 12 case RedirectSchema => 13
    case IncludeTable => 14 case IncludeSchema => 14 case ExcludeTable => 15
    case _ => 16
  }

  lemma FrontInPlace(cluster: Cluster, o: GprestoreOptions, job: RestoreJobOptions)
    ensures InPlace(FrontSections(cluster, o, job), Place, 0)
  {}

  lemma SwitchesInPlace(o: GprestoreOptions)
    ensures InPlace(SwitchSections(BoolFlags(o)), Place, 3)
  {
    assert forall i :: 0 <= i < 9 ==> Place(BoolFlags(o)[i].1) == i + 3;
  }

  lemma TailInPlace(job: RestoreJobOptions)
    ensures InPlace(TailSections(job), Place, 12)
  {}

  lemma SectionsInPlace(cluster: Cluster, o: GprestoreOptions, job: RestoreJobOptions)
    ensures |RestoreSections(cluster, o, job)| == 16 && InPlace(RestoreSections(cluster, o, job), Place, 0)
  {
    var front, flags := FrontSections(cluster, o, job), SwitchSections(BoolFlags(o));
    FrontInPlace(cluster, o, job);
    SwitchesInPlace(o);
    TailInPlace(job);
    InPlaceConcat(front, flags, Place, 0);
    InPlaceConcat(front + flags, TailSections(job), Place, 0);
  }

  /** The section at a flag's place is that flag's, or the flag has no value. */
  ghost predicate AtPlace(cluster: Cluster, o: GprestoreOptions, job: RestoreJobOptions, f: Flag) {
    var secs := RestoreSections(cluster, o, job);
    RestoreValues(cluster, o, job, f) ==
      if Place(f) < |secs| && secs[Place(f)].flag == f then secs[Place(f)].values else []
  }

  lemma FrontAtPlace(cluster: Cluster, o: GprestoreOptions, job: RestoreJobOptions, f: Flag)
    requires Place(f) < 3
    ensures AtPlace(cluster, o, job, f)
  {
    assert RestoreSections(cluster, o, job)[Place(f)] == FrontSections(cluster, o, job)[Place(f)];
  }

  lemma SwitchAtPlace(cluster: Cluster, o: GprestoreOptions, job: RestoreJobOptions, f: Flag)
    requires 3 <= Place(f) < 12
    ensures AtPlace(cluster, o, job, f)
  {
    var k := Place(f) - 3;
    assert RestoreSections(cluster, o, job)[Place(f)] == SwitchSections(BoolFlags(o))[k];
    SwitchValue(cluster, o, job, f);
  }

  lemma SwitchValue(cluster: Cluster, o: GprestoreOptions, job: RestoreJobOptions, f: Flag)
    requires 3 <= Place(f) < 12
    ensures BoolFlags(o)[Place(f) - 3].1 == f
    ensures RestoreValues(cluster, o, job, f) == Given(BoolFlags(o)[Place(f) - 3].0, "")
  {}

  lemma TailAtPlace(cluster: Cluster, o: GprestoreOptions, job: RestoreJobOptions, f: Flag)
    requires 12 <= Place(f)
    ensures AtPlace(cluster, o, job, f)
  {
    var secs := RestoreSections(cluster, o, job);
    if Place(f) < 16 { assert secs[Place(f)] == TailSections(job)[Place(f) - 12]; }
  }

  lemma RestoreItemsOk(cluster: Cluster, o: GprestoreOptions, job: RestoreJobOptions)
    ensures ItemsOk(RestoreItems(cluster, o, job))
  {
    assert forall i :: 0 <= i < |BoolFlags(o)| ==> SectionOk(SwitchSections(BoolFlags(o))[i]);
    assert forall i :: 0 <= i < 3 ==> SectionOk(FrontSections(cluster, o, job)[i]);
    assert forall i :: 0 <= i < 4 ==> SectionOk(TailSections(job)[i]);
    FlattenOk(RestoreSections(cluster, o, job));
  }

  lemma RestoreFlag(cluster: Cluster, o: GprestoreOptions, job: RestoreJobOptions, f: Flag)
    ensures Values(RestoreItems(cluster, o, job), f) == RestoreValues(cluster, o, job, f)
  {
    SectionsInPlace(cluster, o, job);
    if Place(f) < 3 { FrontAtPlace(cluster, o, job, f); }
    else if Place(f) < 12 { SwitchAtPlace(cluster, o, job, f); }
    else { TailAtPlace(cluster, o, job, f); }
    ValuesInPlace(RestoreSections(cluster, o, job), Place, f);
  }

  /** The argument list of gprestore reads back as exactly the effective options, for every flag. */
  lemma GprestoreArgsReadBack(cluster: Cluster, o: GprestoreOptions, job: RestoreJobOptions)
    ensures Read(Args(RestoreItems(cluster, o, job))) == Some(RestoreItems(cluster, o, job))
    ensures forall f :: Values(RestoreItems(cluster, o, job), f) == RestoreValues(cluster, o, job, f)
  {
    RestoreItemsOk(cluster, o, job);
    ReadArgs(RestoreItems(cluster, o, job));
    forall f ensures Values(RestoreItems(cluster, o, job), f) == RestoreValues(cluster, o, job, f) {
      RestoreFlag(cluster, o, job, f);
    }
  }

  lemma ExclusiveValues(cluster: Cluster, o: GprestoreOptions, job: RestoreJobOptions)
    ensures RestoreValues(cluster, o, job, IncludeSchema) == [] || RestoreValues(cluster, o, job, IncludeTable) == []
    ensures RestoreValues(cluster, o, job, RunAnalyze) == [] || RestoreValues(cluster, o, job, WithStats) == []
  {}

  /** Both pairs of flags that gprestore refuses together are kept apart, for all inputs. */
  lemma RestoreExclusions(cluster: Cluster, o: GprestoreOptions, job: RestoreJobOptions)
    ensures Values(RestoreItems(cluster, o, job), IncludeSchema) == []
            || Values(RestoreItems(cluster, o, job), IncludeTable) == []
    ensures Values(RestoreItems(cluster, o, job), RunAnalyze) == []
            || Values(RestoreItems(cluster, o, job), WithStats) == []
  {
    GprestoreArgsReadBack(cluster, o, job);
    ExclusiveValues(cluster, o, job);
  }

  // ------------------------------------------------------------------- the API

  /** Request options over the cluster's defaults: switches come from the request alone. */
  function MergeGprestoreOptions(cluster: Cluster, gr: GprestoreOptions): GprestoreOptions {
    var base := OrElse(if cluster.backup.Some? then cluster.backup.value.gprestore else None, NO_RESTORE_OPTIONS);
    gr.(jobs := BackupJobs.OrInt(gr.jobs, base.jobs),
        withStats := if gr.withStats.Some? then gr.withStats else base.withStats)
  }

  function BuildRestoreJobOptions(
    cluster: Cluster, req: Option<GprestoreRequest>, timestamp: string): RestoreJobOptions
  {
    if req.None? then NO_RESTORE_JOB.(timestamp := timestamp)
    else
      var gr := req.value;
      RestoreJobOptions(timestamp, Some(MergeGprestoreOptions(cluster, gr.options)), gr.redirectDb, gr.redirectSchema,
                        gr.includeSchemas, gr.includeTables, gr.excludeTables)
  }

  predicate RestoreOptionsConflict(req: Option<GprestoreRequest>) {
    req.Some? && req.value.options.dataOnly && req.value.options.metadataOnly
  }

  function GprestoreOrSpec(cluster: Cluster, opts: RestoreJobOptions): Option<GprestoreOptions> {
    if opts.gprestore.None? && cluster.backup.Some? then cluster.backup.value.gprestore else opts.gprestore
  }

  function JobItems(cluster: Cluster, opts: RestoreJobOptions): seq<Item> {
    RestoreItems(cluster, OrElse(GprestoreOrSpec(cluster, opts), NO_RESTORE_OPTIONS), opts)
  }

  method BuildRestoreJob(cluster: Cluster, opts: Option<RestoreJobOptions>) returns (args: seq<string>)
    ensures args == Args(JobItems(cluster, OrElse(opts, NO_RESTORE_JOB)))
  {
    var o := OrElse(opts, NO_RESTORE_JOB);
    var gr := GprestoreOrSpec(cluster, o);
    args := BuildGprestoreArgs(cluster, gr, Some(o));
  }

  /** The cluster's own gprestore options. */
  function Defaults(cluster: Cluster): GprestoreOptions {
    if cluster.backup.Some? && cluster.backup.value.gprestore.Some? then cluster.backup.value.gprestore.value
    else GprestoreOptions(0, false, false, None, false, false, false, false, false, false)
  }

  /** What a request makes gprestore read: without options the cluster's own; with options its own switches
      and texts, and the cluster's number of jobs and choice of statistics where it has none. */
  function RequestedValues(cluster: Cluster, req: Option<GprestoreRequest>, timestamp: string, f: Flag): seq<string> {
    var base := Defaults(cluster);
    match req
    case None => RestoreValues(cluster, base, RestoreJobOptions(timestamp, None, "", "", [], [], []), f)
    case Some(gr) =>
      if f == Jobs then Printed(if gr.options.jobs == 0 then base.jobs else gr.options.jobs)
      else if f == WithStats then
        var asked := if gr.options.withStats == None then base.withStats else gr.options.withStats;
        Given(asked == Some(true) && !gr.options.runAnalyze, "")
      else RestoreValues(cluster, gr.options,
                         RestoreJobOptions(timestamp, None, gr.redirectDb, gr.redirectSchema, gr.includeSchemas,
                                           gr.includeTables, gr.excludeTables), f)
  }

  lemma MergeReads(cluster: Cluster, gr: GprestoreRequest, timestamp: string, f: Flag)
    ensures var opts := BuildRestoreJobOptions(cluster, Some(gr), timestamp);
            RestoreValues(cluster, opts.gprestore.value, opts, f) == RequestedValues(cluster, Some(gr), timestamp, f)
  {
    if f != Jobs && f != WithStats {
      var opts := BuildRestoreJobOptions(cluster, Some(gr), timestamp);
      OwnReads(cluster, opts.gprestore.value, gr.options, opts, f);
    }
  }

  lemma OwnReads(cluster: Cluster, o: GprestoreOptions, own: GprestoreOptions, job: RestoreJobOptions, f: Flag)
    requires f != Jobs && f != WithStats && o == own.(jobs := o.jobs, withStats := o.withStats)
    ensures RestoreValues(cluster, o, job, f) == RestoreValues(cluster, own, job.(gprestore := None), f)
  {}

  lemma DefaultReads(cluster: Cluster, timestamp: string, f: Flag)
    ensures var opts := BuildRestoreJobOptions(cluster, None, timestamp);
            RestoreValues(cluster, Defaults(cluster), opts, f) == RequestedValues(cluster, None, timestamp, f)
  {}

  /** Through the request merge, gprestore reads for every flag what was requested. */
  lemma RequestReadBack(cluster: Cluster, req: Option<GprestoreRequest>, timestamp: string, f: Flag)
    ensures Values(JobItems(cluster, BuildRestoreJobOptions(cluster, req, timestamp)), f) ==
            RequestedValues(cluster, req, timestamp, f)
  {
    var opts := BuildRestoreJobOptions(cluster, req, timestamp);
    RestoreFlag(cluster, OrElse(GprestoreOrSpec(cluster, opts), NO_RESTORE_OPTIONS), opts, f);
    if req.Some? { MergeReads(cluster, req.value, timestamp, f); } else { DefaultReads(cluster, timestamp, f); }
  }

  /** A request that is turned away would have made gprestore refuse its flags. */
  lemma ConflictIsReal(cluster: Cluster, req: Option<GprestoreRequest>, timestamp: string)
    requires RestoreOptionsConflict(req)
    ensures var items := JobItems(cluster, BuildRestoreJobOptions(cluster, req, timestamp));
            Values(items, DataOnly) != [] && Values(items, MetadataOnly) != []
  {
    var opts := BuildRestoreJobOptions(cluster, req, timestamp);
    ModeFlags(cluster, OrElse(GprestoreOrSpec(cluster, opts), NO_RESTORE_OPTIONS), opts);
  }

  /** A cluster without options of its own restores a timestamp with nothing switched on. */
  lemma BareRestore(cluster: Cluster, timestamp: string, f: Flag)
    requires cluster.backup == None && timestamp != ""
    ensures Values(JobItems(cluster, BuildRestoreJobOptions(cluster, None, timestamp)), f) ==
            if f == PluginConfig then ["/tmp/s3-config.yaml"] else if f == Timestamp then [timestamp] else []
  {
    RequestReadBack(cluster, None, timestamp, f);
  }

  /** The cluster's own restore defaults ask for data only and for metadata only. */
  predicate SpecConflicts(cluster: Cluster) {
    cluster.backup.Some? && cluster.backup.value.gprestore.Some?
    && cluster.backup.value.gprestore.value.dataOnly && cluster.backup.value.gprestore.value.metadataOnly
  }

  lemma ModeFlags(cluster: Cluster, o: GprestoreOptions, job: RestoreJobOptions)
    ensures Values(RestoreItems(cluster, o, job), DataOnly) != [] <==> o.dataOnly
    ensures Values(RestoreItems(cluster, o, job), MetadataOnly) != [] <==> o.metadataOnly
  {
    GprestoreArgsReadBack(cluster, o, job);
    ModeValues(cluster, o, job);
  }

  lemma ModeValues(cluster: Cluster, o: GprestoreOptions, job: RestoreJobOptions)
    ensures RestoreValues(cluster, o, job, DataOnly) != [] <==> o.dataOnly
    ensures RestoreValues(cluster, o, job, MetadataOnly) != [] <==> o.metadataOnly
  {}

  lemma MergedModes(cluster: Cluster, req: Option<GprestoreRequest>, timestamp: string)
    requires !RestoreOptionsConflict(req)
    ensures var opts := BuildRestoreJobOptions(cluster, req, timestamp);
            var o := OrElse(GprestoreOrSpec(cluster, opts), NO_RESTORE_OPTIONS);
            o.dataOnly && o.metadataOnly <==> req.None? && SpecConflicts(cluster)
  {}

  /** An accepted request yields both --data-only and --metadata-only exactly when it
      carries no options and the cluster's defaults, which are not checked, have both. */
  lemma DataAndMetadataOnly(cluster: Cluster, req: Option<GprestoreRequest>, timestamp: string)
    requires !RestoreOptionsConflict(req)
    ensures var items := JobItems(cluster, BuildRestoreJobOptions(cluster, req, timestamp));
            Values(items, DataOnly) != [] && Values(items, MetadataOnly) != [] <==> req.None? && SpecConflicts(cluster)
  {
    var opts := BuildRestoreJobOptions(cluster, req, timestamp);
    ModeFlags(cluster, OrElse(GprestoreOrSpec(cluster, opts), NO_RESTORE_OPTIONS), opts);
    MergedModes(cluster, req, timestamp);
  }

  /** A request without options lets defaults through that gprestore refuses. */
  lemma UncheckedDefaults(cluster: Cluster)
    requires cluster.backup ==
             Some(BackupSpec("s3", "", None, Some(NO_RESTORE_OPTIONS.(dataOnly := true, metadataOnly := true))))
    ensures !RestoreOptionsConflict(None)
    ensures var items := JobItems(cluster, BuildRestoreJobOptions(cluster, None, "20260101000000"));
            Values(items, DataOnly) != [] && Values(items, MetadataOnly) != []
  {
    DataAndMetadataOnly(cluster, None, "20260101000000");
  }

  // -------------------------------------------------------- tolerated exit codes

  const GPRESTORE := "gprestore"

  method StatsPartialTolerated(tool: string, args: seq<string>) returns (r: bool)
    ensures r <==> tool == "gprestore" && "--with-stats" in args
  {
    if tool != GPRESTORE { return false; }
    for i := 0 to |args|
      invariant FlagText(WithStats) !in args[..i]
    {
      if args[i] == FlagText(WithStats) { return true; }
    }
    return false;
  }

  /** A text among the arguments is a flag that is given or a value of one. */
  ghost predicate Mentions(items: seq<Item>, text: string, f: Flag) {
    (FlagText(f) == text && Values(items, f) != []) || (TakesValue(f) && text in Values(items, f))
  }

  lemma {:induction false} ArgsMention(items: seq<Item>, text: string)
    ensures text in Args(items) <==> exists f :: Mentions(items, text, f)
  {
    if items != [] {
      var it, rest := items[0], items[1..];
      ArgsMention(rest, text);
      forall f
        ensures Mentions(items, text, f) <==> Mentions(rest, text, f) || (it.flag == f && text in ItemArgs(it)) {}
      if text in ItemArgs(it) { assert Mentions(items, text, it.flag); }
      if text in Args(rest) {
        var f :| Mentions(rest, text, f);
        assert Mentions(items, text, f);
      }
    }
  }

  /** A text of the request or of the cluster that reaches the argument list as a value. */
  predicate GivenText(cluster: Cluster, job: RestoreJobOptions, text: string) {
    || (IsLocal(cluster) && text == LocalDir(cluster))
    || text == job.timestamp || text == job.redirectDb || text == job.redirectSchema
    || text in IncludeTexts(job) || text in job.excludeTables
  }

  function IncludeTexts(job: RestoreJobOptions): seq<string> {
    if job.includeTables != [] then job.includeTables else job.includeSchemas
  }

  lemma WithStatsIsNoDefault(n: nat)
    ensures FlagText(WithStats) != "" && FlagText(WithStats) != "/tmp/s3-config.yaml"
    ensures FlagText(WithStats) != Itoa(n)
  {
    assert FlagText(WithStats)[0] == '-';
    assert "/tmp/s3-config.yaml"[0] == '/';
    assert !IsDigit('-');
  }

  /** The values that can read like the statistics switch are the given texts. */
  lemma ValueMention(cluster: Cluster, o: GprestoreOptions, job: RestoreJobOptions, f: Flag)
    ensures TakesValue(f) && FlagText(WithStats) in RestoreValues(cluster, o, job, f) ==>
              GivenText(cluster, job, FlagText(WithStats))
  {
    WithStatsIsNoDefault(if o.jobs > 0 then o.jobs else 0);
    InNonEmpty(FlagText(WithStats), job.includeTables);
    InNonEmpty(FlagText(WithStats), job.includeSchemas);
    InNonEmpty(FlagText(WithStats), job.excludeTables);
  }

  lemma ListedMention(cluster: Cluster, o: GprestoreOptions, job: RestoreJobOptions, text: string) returns (f: Flag)
    requires text != "" && (text in IncludeTexts(job) || text in job.excludeTables)
    ensures TakesValue(f) && text in RestoreValues(cluster, o, job, f)
  {
    InNonEmpty(text, IncludeTexts(job));
    InNonEmpty(text, job.excludeTables);
    if text in job.excludeTables { return ExcludeTable; }
    return if job.includeTables != [] then IncludeTable else IncludeSchema;
  }

  lemma TextMention(cluster: Cluster, o: GprestoreOptions, job: RestoreJobOptions, text: string) returns (f: Flag)
    requires GivenText(cluster, job, text) && text != ""
    ensures TakesValue(f) && text in RestoreValues(cluster, o, job, f)
  {
    if text in IncludeTexts(job) || text in job.excludeTables {
      f := ListedMention(cluster, o, job, text);
    } else {
      f := if text == job.timestamp then Timestamp
           else if text == job.redirectDb then RedirectDb
           else if text == job.redirectSchema then RedirectSchema
           else BackupDir;
    }
  }

  /** Exit code 2 is tolerated exactly when statistics are restored, or when some
      given text happens to read like the switch. */
  lemma ToleratedExactly(cluster: Cluster, o: GprestoreOptions, job: RestoreJobOptions)
    ensures "--with-stats" in Args(RestoreItems(cluster, o, job)) <==>
            (o.withStats == Some(true) && !o.runAnalyze) || GivenText(cluster, job, "--with-stats")
  {
    var items, text := RestoreItems(cluster, o, job), FlagText(WithStats);
    ArgsMention(items, text);
    RestoreFlag(cluster, o, job, WithStats);
    if EffectiveWithStats(o) { assert Mentions(items, text, WithStats); }
    if GivenText(cluster, job, text) {
      WithStatsIsNoDefault(0);
      var f := TextMention(cluster, o, job, text);
      RestoreFlag(cluster, o, job, f);
      assert Mentions(items, text, f);
    }
    if text in Args(items) {
      var f :| Mentions(items, text, f);
      RestoreFlag(cluster, o, job, f);
      ValueMention(cluster, o, job, f);
      if FlagText(f) == text { FlagTextInjective(f, WithStats); }
    }
  }

  // ------------------------------------------------- running on the coordinator

  function DropLeadingPluginConfig(args: seq<string>): seq<string> {
    if |args| >= 2 && args[0] == FlagText(PluginConfig) then args[2..] else args
  }

  lemma DropLeadingPair(cluster: Cluster, items: seq<Item>)
    requires items != [] && items[0] == DestinationItem(cluster)
    ensures DropLeadingPluginConfig(Args(items)) == Args(if IsLocal(cluster) then items else items[1..])
  {
    var d, rest := items[0], Args(items[1..]);
    assert TakesValue(d.flag);
    assert Args(items) == [FlagText(d.flag), d.value] + rest;
    assert ([FlagText(d.flag), d.value] + rest)[2..] == rest;
    if FlagText(d.flag) == FlagText(PluginConfig) { FlagTextInjective(d.flag, PluginConfig); }
  }

  /** Without its leading plugin configuration a command line has no other, and all other flags are as before. */
  lemma {:induction false} ValuesWithoutHead(items: seq<Item>, f: Flag)
    requires items != [] && items[0].flag == PluginConfig && |Values(items, PluginConfig)| <= 1
    ensures Values(items[1..], PluginConfig) == []
    ensures f != PluginConfig ==> Values(items[1..], f) == Values(items, f)
  {
    var rest := items[1..];
    assert Values(items, PluginConfig) == [items[0].value] + Values(rest, PluginConfig);
    assert [] + Values(rest, f) == Values(rest, f);
  }

  /** Only the S3 destination loses its leading pair. */
  lemma DropReads(cluster: Cluster, items: seq<Item>)
    requires ItemsOk(items) && items != [] && items[0] == DestinationItem(cluster)
    ensures Read(DropLeadingPluginConfig(Args(items))) == Some(if IsLocal(cluster) then items else items[1..])
  {
    DropLeadingPair(cluster, items);
    ReadArgs(if IsLocal(cluster) then items else items[1..]);
  }

  lemma DropKeepsTheRest(cluster: Cluster, items: seq<Item>)
    requires ItemsOk(items) && items != [] && items[0] == DestinationItem(cluster) && !IsLocal(cluster)
    requires |Values(items, PluginConfig)| <= 1
    ensures Read(DropLeadingPluginConfig(Args(items))) == Some(items[1..])
    ensures Values(items[1..], PluginConfig) == []
    ensures forall f :: f != PluginConfig ==> Values(items[1..], f) == Values(items, f)
  {
    DropReads(cluster, items);
    forall f ensures Values(items[1..], PluginConfig) == []
             ensures f != PluginConfig ==> Values(items[1..], f) == Values(items, f)
    {
      ValuesWithoutHead(items, f);
    }
  }

  /** A restore on the coordinator is told everything but the plugin configuration of the Job's own pod. */
  lemma RestoreOnCoordinator(cluster: Cluster, o: GprestoreOptions, job: RestoreJobOptions)
    requires !IsLocal(cluster)
    ensures var read := Read(DropLeadingPluginConfig(Args(RestoreItems(cluster, o, job))));
            && read.Some? && Values(read.value, PluginConfig) == []
            && forall f :: f != PluginConfig ==> Values(read.value, f) == RestoreValues(cluster, o, job, f)
  {
    var items, secs := RestoreItems(cluster, o, job), RestoreSections(cluster, o, job);
    RestoreItemsOk(cluster, o, job);
    assert secs[0] == FrontSections(cluster, o, job)[0];
    FlattenHead(secs);
    GprestoreArgsReadBack(cluster, o, job);
    OnePluginConfig(cluster, o, job);
    DropKeepsTheRest(cluster, items);
  }

  lemma OnePluginConfig(cluster: Cluster, o: GprestoreOptions, job: RestoreJobOptions)
    ensures |RestoreValues(cluster, o, job, PluginConfig)| <= 1
  {}

  /** The same for a backup. */
  lemma BackupOnCoordinator(cluster: Cluster, o: GpbackupOptions, job: BackupJobOptions)
    requires !IsLocal(cluster)
    ensures var read := Read(DropLeadingPluginConfig(Args(BackupItems(cluster, o, job))));
            && read.Some? && Values(read.value, PluginConfig) == []
            && forall f :: f != PluginConfig ==> Values(read.value, f) == EffectiveValues(cluster, o, job, f)
  {
    var items, secs := BackupItems(cluster, o, job), BackupSections(cluster, o, job);
    BackupItemsOk(cluster, o, job);
    assert secs[0] == HeadSections(cluster, FirstDatabase(job.databases))[0];
    FlattenHead(secs);
    forall f ensures Values(items, f) == EffectiveValues(cluster, o, job, f) { BackupValues(cluster, o, job, f); }
    BackupJobs.HeadValues(cluster, o, job);
    OneBackupPluginConfig(cluster, o, job);
    DropKeepsTheRest(cluster, items);
  }

  lemma OneBackupPluginConfig(cluster: Cluster, o: GpbackupOptions, job: BackupJobOptions)
    ensures |EffectiveValues(cluster, o, job, PluginConfig)| <= 1
  {}

  /** The shell text of an invocation, split by the shell and read by the tool, gives back the flags and values. */
  lemma ScriptReadBack(tool: string, items: seq<Item>)
    requires Shell.IsPlainWord(tool) && ItemsOk(items)
    ensures var words := Shell.Tokenize(tool + Shell.QuotedArgs(Args(items)));
            words.Some? && words.value != [] && words.value[0] == tool && Read(words.value[1..]) == Some(items)
  {
    Shell.InvocationRoundTrip(tool, Args(items));
    ReadArgs(items);
    assert ([tool] + Args(items))[1..] == Args(items);
  }
}
