/** Command lines of gpbackup and gprestore: flags, their texts, and a reader.

    The reader takes an argument list apart from left to right; a flag that takes
    a value takes the next argument, whatever that looks like. */
module CommandLine {
  import opened Basics

  datatype Flag =
    | PluginConfig | BackupDir | DbName | NoCompression | CompressionLevel | CompressionType
    | SingleDataFile | CopyQueueSize | Jobs | Incremental | LeafPartitionData | FromTimestamp
    | WithStats | WithoutGlobals | IncludeSchema | IncludeTable | ExcludeTable
    | Timestamp | CreateDb | WithGlobals | RunAnalyze | OnErrorContinue | TruncateTable
    | DataOnly | MetadataOnly | ResizeCluster | RedirectDb | RedirectSchema

  function FlagText(f: Flag): string {
    match f
    case PluginConfig => "--plugin-config"
    case BackupDir => "--backup-dir"
    case DbName => "--dbname"
    case NoCompression => "--no-compression"
    case CompressionLevel => "--compression-level"
    case CompressionType => "--compression-type"
    case SingleDataFile => "--single-data-file"
    case CopyQueueSize => "--copy-queue-size"
    case Jobs => "--jobs"
    case Incremental => "--incremental"
    case LeafPartitionData => "--leaf-partition-data"
    case FromTimestamp => "--from-timestamp"
    case WithStats => "--with-stats"
    case WithoutGlobals => "--without-globals"
    case IncludeSchema => "--include-schema"
    case IncludeTable => "--include-table"
    case ExcludeTable => "--exclude-table"
    case Timestamp => "--timestamp"
    case CreateDb => "--create-db"
    case WithGlobals => "--with-globals"
    case RunAnalyze => "--run-analyze"
    case OnErrorContinue => "--on-error-continue"
    case TruncateTable => "--truncate-table"
    case DataOnly => "--data-only"
    case MetadataOnly => "--metadata-only"
    case ResizeCluster => "--resize-cluster"
    case RedirectDb => "--redirect-db"
    case RedirectSchema => "--redirect-schema"
  }

  predicate TakesValue(f: Flag) {
    f in {PluginConfig, BackupDir, DbName, CompressionLevel, CompressionType, CopyQueueSize, Jobs, FromTimestamp,
          IncludeSchema, IncludeTable, ExcludeTable, Timestamp, RedirectDb, RedirectSchema}
  }

  /** One flag of a command line with its value; a switch has the value "". */
  datatype Item = Item(flag: Flag, value: string)

  predicate IsItem(it: Item) { TakesValue(it.flag) || it.value == "" }

  ghost predicate ItemsOk(items: seq<Item>) { forall i :: 0 <= i < |items| ==> IsItem(items[i]) }

  function ItemArgs(it: Item): seq<string> {
    if TakesValue(it.flag) then [FlagText(it.flag), it.value] else [FlagText(it.flag)]
  }

  function Args(items: seq<Item>): seq<string> {
    if items == [] then [] else ItemArgs(items[0]) + Args(items[1..])
  }

  lemma {:induction false} ArgsConcat(a: seq<Item>, b: seq<Item>)
    ensures Args(a + b) == Args(a) + Args(b)
    decreases |a|
  {
    if a == [] {
      assert a + b == b;
    } else {
      assert (a + b)[1..] == a[1..] + b;
      ArgsConcat(a[1..], b);
    }
  }

  // -------------------------------------------------------------------- reader

  /** The flag a text spells, by the spellings in the manuals of the two tools. */
  function FlagOf(s: string): Option<Flag> {
    match |s|
    case 6 => if s == "--jobs" then Some(Jobs) else None
    case 8 => if s == "--dbname" then Some(DbName) else None
    case 11 =>
      if s == "--timestamp" then Some(Timestamp)
      else if s == "--create-db" then Some(CreateDb)
      else if s == "--data-only" then Some(DataOnly) else None
    case 12 =>
      if s == "--backup-dir" then Some(BackupDir) else if s == "--with-stats" then Some(WithStats) else None
    case 13 =>
      if s == "--incremental" then Some(Incremental)
      else if s == "--run-analyze" then Some(RunAnalyze)
      else if s == "--redirect-db" then Some(RedirectDb) else None
    case 14 => if s == "--with-globals" then Some(WithGlobals) else None
    case 15 =>
      if s == "--plugin-config" then Some(PluginConfig)
      else if s == "--include-table" then Some(IncludeTable)
      else if s == "--exclude-table" then Some(ExcludeTable)
      else if s == "--metadata-only" then Some(MetadataOnly) else None
    case 16 =>
      if s == "--no-compression" then Some(NoCompression)
      else if s == "--from-timestamp" then Some(FromTimestamp)
      else if s == "--include-schema" then Some(IncludeSchema)
      else if s == "--truncate-table" then Some(TruncateTable)
      else if s == "--resize-cluster" then Some(ResizeCluster) else None
    case 17 =>
      if s == "--copy-queue-size" then Some(CopyQueueSize)
      else if s == "--without-globals" then Some(WithoutGlobals)
      else if s == "--redirect-schema" then Some(RedirectSchema) else None
    case 18 =>
      if s == "--compression-type" then Some(CompressionType)
      else if s == "--single-data-file" then Some(SingleDataFile) else None
    case 19 =>
      if s == "--compression-level" then Some(CompressionLevel)
      else if s == "--on-error-continue" then Some(OnErrorContinue) else None
    case 21 => if s == "--leaf-partition-data" then Some(LeafPartitionData) else None
    case _ => None
  }

  ghost function Read(args: seq<string>): Option<seq<Item>>
    decreases |args|
  {
    if args == [] then Some([])
    else
      var f := FlagOf(args[0]);
      if f.None? || (TakesValue(f.value) && |args| < 2) then None
      else
        var (it, rest) :=
          if TakesValue(f.value) then (Item(f.value, args[1]), args[2..]) else (Item(f.value, ""), args[1..]);
        var items := Read(rest);
        if items.None? then None else Some([it] + items.value)
  }

  /** What is printed for a flag spells that flag. */
  lemma FlagOfText(f: Flag)
    ensures FlagOf(FlagText(f)) == Some(f)
  {
    if f in SHARED { SharedFlagText(f); }
    else if f in OF_BACKUPS { BackupFlagText(f); }
    else if f in OF_RESTORES { RestoreFlagText(f); }
    else { ContentFlagText(f); }
  }

  const SHARED := {PluginConfig, BackupDir, Jobs, WithStats, IncludeSchema, IncludeTable, ExcludeTable}
  const OF_BACKUPS := {DbName, NoCompression, CompressionLevel, CompressionType, SingleDataFile, CopyQueueSize,
                       Incremental, LeafPartitionData, FromTimestamp, WithoutGlobals}
  const OF_RESTORES := {Timestamp, CreateDb, WithGlobals, RunAnalyze, RedirectDb, RedirectSchema}

  lemma SharedFlagText(f: Flag)
    requires f in SHARED
    ensures FlagOf(FlagText(f)) == Some(f)
  {}

  lemma BackupFlagText(f: Flag)
    requires f in OF_BACKUPS
    ensures FlagOf(FlagText(f)) == Some(f)
  {}

  lemma RestoreFlagText(f: Flag)
    requires f in OF_RESTORES
    ensures FlagOf(FlagText(f)) == Some(f)
  {}

  lemma ContentFlagText(f: Flag)
    requires f in {OnErrorContinue, TruncateTable, DataOnly, MetadataOnly, ResizeCluster}
    ensures FlagOf(FlagText(f)) == Some(f)
  {}

  lemma FlagTextInjective(f: Flag, g: Flag)
    requires FlagText(f) == FlagText(g)
    ensures f == g
  {
    FlagOfText(f);
    FlagOfText(g);
  }

  /** A printed command line reads back as the flags and values it was printed from. */
  lemma {:induction false} ReadArgs(items: seq<Item>)
    requires ItemsOk(items)
    ensures Read(Args(items)) == Some(items)
    decreases |items|
  {
    if items != [] {
      var it, rest := items[0], Args(items[1..]);
      ReadArgs(items[1..]);
      FlagOfText(it.flag);
      assert (ItemArgs(it) + rest)[|ItemArgs(it)|..] == rest;
      assert items == [it] + items[1..];
    }
  }

  // ------------------------------------------------------------- what flags say

  /** All values given to a flag, in order; a switch that is given n times has n empty values. */
  function Values(items: seq<Item>, f: Flag): seq<string> {
    if items == [] then []
    else (if items[0].flag == f then [items[0].value] else []) + Values(items[1..], f)
  }

  lemma {:induction false} ValuesConcat(a: seq<Item>, b: seq<Item>, f: Flag)
    ensures Values(a + b, f) == Values(a, f) + Values(b, f)
    decreases |a|
  {
    if a == [] {
      assert a + b == b;
    } else {
      assert (a + b)[1..] == a[1..] + b;
      ValuesConcat(a[1..], b, f);
    }
  }

  function NonEmpty(values: seq<string>): seq<string> {
    if values == [] then [] else (if values[0] == "" then [] else [values[0]]) + NonEmpty(values[1..])
  }

  lemma InNonEmpty(v: string, values: seq<string>)
    ensures v in NonEmpty(values) <==> v != "" && v in values
  {}

  // ------------------------------------------------------------------ sections

  /** One flag and all values it is given, in order. */
  datatype Section = Section(flag: Flag, values: seq<string>)

  predicate SectionOk(s: Section) {
    TakesValue(s.flag) || forall i :: 0 <= i < |s.values| ==> s.values[i] == ""
  }

  function Given(cond: bool, v: string): seq<string> { if cond then [v] else [] }

  function Lay(f: Flag, values: seq<string>): seq<Item> {
    seq(|values|, i requires 0 <= i < |values| => Item(f, values[i]))
  }

  function Flatten(secs: seq<Section>): seq<Item> {
    if secs == [] then [] else Flatten(secs[..|secs| - 1]) + Lay(secs[|secs| - 1].flag, secs[|secs| - 1].values)
  }

  lemma FlattenSnoc(secs: seq<Section>, s: Section)
    ensures Flatten(secs + [s]) == Flatten(secs) + Lay(s.flag, s.values)
  {
    var all := secs + [s];
    assert all[..|all| - 1] == secs;
  }

  /** Laid out under a flag, values read back as they are, and no other flag has any. */
  lemma {:induction false} LayValues(g: Flag, values: seq<string>, f: Flag)
    ensures Values(Lay(g, values), f) == if f == g then values else []
  {
    if values != [] {
      LayValues(g, values[1..], f);
      assert Lay(g, values)[1..] == Lay(g, values[1..]);
    }
  }

  /** When no flag has two sections, a flag reads back as its own section. */
  lemma {:induction false} FlattenValues(secs: seq<Section>, f: Flag, k: int)
    requires forall i :: 0 <= i < |secs| && i != k ==> secs[i].flag != f
    requires 0 <= k < |secs| ==> secs[k].flag == f
    ensures Values(Flatten(secs), f) == if 0 <= k < |secs| then secs[k].values else []
  {
    if secs != [] {
      var last := secs[|secs| - 1];
      FlattenValues(secs[..|secs| - 1], f, if k == |secs| - 1 then -1 else k);
      ValuesConcat(Flatten(secs[..|secs| - 1]), Lay(last.flag, last.values), f);
      LayValues(last.flag, last.values, f);
    }
  }

  lemma {:induction false} FlattenOk(secs: seq<Section>)
    requires forall i :: 0 <= i < |secs| ==> SectionOk(secs[i])
    ensures ItemsOk(Flatten(secs))
  {
    if secs != [] { FlattenOk(secs[..|secs| - 1]); }
  }

  lemma {:induction false} FlattenHead(secs: seq<Section>)
    requires secs != [] && |secs[0].values| == 1
    ensures Flatten(secs) != [] && Flatten(secs)[0] == Item(secs[0].flag, secs[0].values[0])
  {
    if |secs| > 1 {
      FlattenHead(secs[..|secs| - 1]);
    } else {
      assert Flatten(secs[..0]) == [];
    }
  }

  /** Every section stands where `place` says its flag does. */
  ghost predicate InPlace(secs: seq<Section>, place: Flag -> nat, from: nat) {
    forall i :: 0 <= i < |secs| ==> place(secs[i].flag) == i + from
  }

  lemma InPlaceConcat(a: seq<Section>, b: seq<Section>, place: Flag -> nat, from: nat)
    requires InPlace(a, place, from) && InPlace(b, place, from + |a|)
    ensures InPlace(a + b, place, from)
  {}

  lemma ValuesInPlace(secs: seq<Section>, place: Flag -> nat, f: Flag)
    requires InPlace(secs, place, 0)
    ensures Values(Flatten(secs), f) ==
            if place(f) < |secs| && secs[place(f)].flag == f then secs[place(f)].values else []
  {
    FlattenValues(secs, f, if place(f) < |secs| && secs[place(f)].flag == f then place(f) else -1);
  }

  // ---------------------------------------------------- growing an argument list

  /** The argument list of some sections. */
  function SectionArgs(secs: seq<Section>): seq<string> { Args(Flatten(secs)) }

  /** What values add under a flag with this text. */
  function PrintedAs(text: string, takesValue: bool, values: seq<string>): seq<string> {
    if values == [] then []
    else (if takesValue then [text, values[0]] else [text]) + PrintedAs(text, takesValue, values[1..])
  }

  /** What one section adds. */
  function PrintedValues(f: Flag, values: seq<string>): seq<string> {
    PrintedAs(FlagText(f), TakesValue(f), values)
  }

  lemma {:induction false} LayArgs(f: Flag, text: string, takesValue: bool, values: seq<string>)
    requires text == FlagText(f) && takesValue == TakesValue(f)
    ensures Args(Lay(f, values)) == PrintedAs(text, takesValue, values)
  {
    if values != [] {
      assert Lay(f, values)[1..] == Lay(f, values[1..]);
      LayArgs(f, text, takesValue, values[1..]);
    }
  }

  lemma AddSection(secs: seq<Section>, s: Section)
    ensures SectionArgs(secs + [s]) == SectionArgs(secs) + PrintedValues(s.flag, s.values)
  {
    FlattenSnoc(secs, s);
    ArgsConcat(Flatten(secs), Lay(s.flag, s.values));
    LayArgs(s.flag, FlagText(s.flag), TakesValue(s.flag), s.values);
  }

  lemma GivenArgs(f: Flag, cond: bool, v: string)
    ensures PrintedValues(f, Given(cond, v)) == if cond then ItemArgs(Item(f, v)) else []
  {
    var text, takesValue := FlagText(f), TakesValue(f);
    if cond {
      assert [v][1..] == [];
      assert PrintedAs(text, takesValue, [v]) ==
             (if takesValue then [text, v] else [text]) + PrintedAs(text, takesValue, []);
    }
  }

  method AppendGiven(args: seq<string>, f: Flag, v: string, cond: bool, ghost secs: seq<Section>)
    returns (out: seq<string>)
    requires TakesValue(f) && args == SectionArgs(secs)
    ensures out == SectionArgs(secs + [Section(f, Given(cond, v))])
  {
    out := if cond then args + [FlagText(f), v] else args;
    GivenArgs(f, cond, v);
    AddSection(secs, Section(f, Given(cond, v)));
  }

  method AppendSwitch(args: seq<string>, f: Flag, enabled: bool, ghost secs: seq<Section>)
    returns (out: seq<string>)
    requires !TakesValue(f) && args == SectionArgs(secs)
    ensures out == SectionArgs(secs + [Section(f, Given(enabled, ""))])
  {
    out := if enabled then args + [FlagText(f)] else args;
    GivenArgs(f, enabled, "");
    AddSection(secs, Section(f, Given(enabled, "")));
  }

  /** A text before each nonempty value. */
  function Pairs(text: string, values: seq<string>): seq<string> {
    if values == [] then []
    else
      var last := values[|values| - 1];
      Pairs(text, values[..|values| - 1]) + if last != "" then [text, last] else []
  }

  lemma {:induction false} PairsCons(text: string, v: string, rest: seq<string>)
    ensures Pairs(text, [v] + rest) == (if v != "" then [text, v] else []) + Pairs(text, rest)
    decreases |rest|
  {
    var all, head := [v] + rest, if v != "" then [text, v] else [];
    if rest == [] {
      assert all[..|all| - 1] == [] && all[|all| - 1] == v;
      assert Pairs(text, all[..|all| - 1]) == [];
    } else {
      var n, last := |rest| - 1, rest[|rest| - 1];
      PairsCons(text, v, rest[..n]);
      assert all[..|all| - 1] == [v] + rest[..n] && all[|all| - 1] == last;
      var end := if last != "" then [text, last] else [];
      assert (head + Pairs(text, rest[..n])) + end == head + (Pairs(text, rest[..n]) + end);
    }
  }

  lemma {:induction false} PrintedArePairs(text: string, values: seq<string>)
    ensures PrintedAs(text, true, NonEmpty(values)) == Pairs(text, values)
  {
    if values != [] {
      PrintedArePairs(text, values[1..]);
      PairsCons(text, values[0], values[1..]);
      assert values == [values[0]] + values[1..];
      var rest := NonEmpty(values[1..]);
      if values[0] != "" {
        assert NonEmpty(values) == [values[0]] + rest && ([values[0]] + rest)[1..] == rest;
      } else {
        assert NonEmpty(values) == rest;
      }
    }
  }

  method AppendPairs(args: seq<string>, text: string, values: seq<string>) returns (out: seq<string>)
    ensures out == args + Pairs(text, values)
  {
    out := args;
    for k := 0 to |values|
      invariant out == args + Pairs(text, values[..k])
    {
      assert values[..k + 1][..k] == values[..k];
      if values[k] != "" { out := out + [text, values[k]]; }
    }
    assert values[..|values|] == values;
  }

  /** Appends "flag value" for each nonempty value. */
  method AppendRepeatedFlag(args: seq<string>, f: Flag, values: seq<string>, ghost secs: seq<Section>)
    returns (out: seq<string>)
    requires TakesValue(f) && args == SectionArgs(secs)
    ensures out == SectionArgs(secs + [Section(f, NonEmpty(values))])
  {
    out := AppendPairs(args, FlagText(f), values);
    PrintedArePairs(FlagText(f), values);
    AddSection(secs, Section(f, NonEmpty(values)));
  }
}
