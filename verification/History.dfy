/** Query history: sessions that disappear between two snapshots become inserts. */
module History {
  import opened Basics
  import opened Decimal

  /** A row of pg_stat_activity; `start` is the query start in nanoseconds. */
  datatype Session = Session(
    pid: int, user: string, database: string, query: string, start: int, state: string, wait: string)

  type Snapshot = map<int, Session>

  /** One row as it arrives: a row that cannot be scanned is None. */
  type Row = Option<Session>

  function QueryId(pid: int, start: int): string {
    "q-" + (Itoa(pid) + ("-" + Itoa(start)))
  }

  lemma QueryIdReads()
    ensures QueryId(42, 7) == "q-42-7"
  {
    assert Digits(42) == Digits(4) + "2";
  }

  lemma QueryIdInjective(p: int, s: int, q: int, t: int)
    requires QueryId(p, s) == QueryId(q, t)
    ensures p == q && s == t
  {
    assert QueryId(p, s)[2..] == Itoa(p) + ("-" + Itoa(s)) && QueryId(q, t)[2..] == Itoa(q) + ("-" + Itoa(t));
    DashedPairInjective(p, s, q, t);
  }

  /** Sessions worth recording: they were running a query with text. */
  predicate Recordable(s: Session) {
    s.state == "active" && s.query != ""
  }

  /** The PIDs whose queries completed between two snapshots. */
  function CompletedPids(before: Snapshot, now: Snapshot): set<int> {
    set pid | pid in before && pid !in now && Recordable(before[pid])
  }

  /** The snapshot of the readable rows: a later row replaces an earlier one with the same PID. */
  function SnapshotOf(rows: seq<Row>): Snapshot {
    if rows == [] then map[]
    else
      var m := SnapshotOf(rows[..|rows| - 1]);
      var last := rows[|rows| - 1];
      if last.None? then m else m[last.value.pid := last.value]
  }

  ghost predicate LastRowOf(rows: seq<Row>, i: int, pid: int) {
    && 0 <= i < |rows| && rows[i].Some? && rows[i].value.pid == pid
    && forall j :: i < j < |rows| ==> !(rows[j].Some? && rows[j].value.pid == pid)
  }

  /** The snapshot shows a PID exactly when some readable row has it, and shows the last such row. */
  lemma {:induction false} SnapshotExactly(rows: seq<Row>, pid: int)
    ensures pid in SnapshotOf(rows) <==> exists i :: 0 <= i < |rows| && rows[i].Some? && rows[i].value.pid == pid
    ensures forall i :: LastRowOf(rows, i, pid) ==> pid in SnapshotOf(rows) && SnapshotOf(rows)[pid] == rows[i].value
  {
    if rows != [] {
      var n := |rows| - 1;
      SnapshotExactly(rows[..n], pid);
      forall i | LastRowOf(rows, i, pid)
        ensures pid in SnapshotOf(rows) && SnapshotOf(rows)[pid] == rows[i].value
      {
        if i < n { assert LastRowOf(rows[..n], i, pid) && !(rows[n].Some? && rows[n].value.pid == pid); }
      }
    }
  }

  class Collector {
    var lastSeen: Snapshot

    constructor ()
      ensures lastSeen == map[]
    {
      lastSeen := map[];
    }

    /** Reads the rows of a snapshot query. */
    method SnapshotSessions(rows: seq<Row>, failed: bool) returns (current: Snapshot, ok: bool)
      ensures ok <==> !failed
      ensures ok ==> current == SnapshotOf(rows)
    {
      current := map[];
      for i := 0 to |rows|
        invariant current == SnapshotOf(rows[..i])
      {
        assert rows[..i + 1][..i] == rows[..i];
        if rows[i].Some? {
          var s := rows[i].value;
          current := current[s.pid := s];
        }
      }
      assert rows[..|rows|] == rows;
      ok := !failed;
    }

    /** One cycle.  `attempted` lists the PIDs whose inserts were tried, in the order
        the previous snapshot happens to be walked; `insertOk` says which succeed. */
    method CollectHistory(rows: seq<Row>, failed: bool, insertOk: int -> bool)
      returns (attempted: seq<int>, inserted: nat)
      modifies this
      ensures failed ==> lastSeen == old(lastSeen) && attempted == [] && inserted == 0
      ensures !failed ==> lastSeen == SnapshotOf(rows)
      ensures !failed ==> forall pid :: pid in attempted <==> pid in CompletedPids(old(lastSeen), SnapshotOf(rows))
      ensures NoRepeat(attempted) && inserted == CountOk(attempted, insertOk)
    {
      attempted, inserted := [], 0;
      var current, ok := SnapshotSessions(rows, failed);
      if !ok { return; }
      attempted, inserted := RecordCompleted(lastSeen, current, insertOk);
      lastSeen := current;
    }

    method CollectIds(cycle: Cycle, insertOk: int -> bool) returns (ids: seq<string>)
      modifies this
      ensures lastSeen == if cycle.failed then old(lastSeen) else SnapshotOf(cycle.rows)
      ensures ListsExactly(ids, CompletedIds(old(lastSeen), SnapshotIn(cycle)))
    {
      var before := lastSeen;
      var attempted, inserted := CollectHistory(cycle.rows, cycle.failed, insertOk);
      ids := IdsOf(before, attempted);
      if !cycle.failed { IdsListed(before, attempted, CompletedPids(before, SnapshotOf(cycle.rows))); }
    }

    /** One cycle after the other; `ids` lists the query ids tried in each. */
    method CollectRun(cycles: seq<Cycle>, insertOk: int -> bool) returns (ids: seq<seq<string>>)
      requires lastSeen == map[]
      modifies this
      ensures lastSeen == Seen(Snapshots(cycles), |cycles|) && |ids| == |cycles|
      ensures forall k :: 0 <= k < |cycles| ==> ListsExactly(ids[k], AttemptedIds(Snapshots(cycles), k))
    {
      ids := [];
      ghost var run := Snapshots(cycles);
      for k := 0 to |cycles|
        invariant lastSeen == Seen(run, k) && AttemptsListed(run, ids, k)
      {
        assert run[k] == SnapshotIn(cycles[k]);
        var now := CollectIds(cycles[k], insertOk);
        OneMoreListed(run, ids, k, now);
        ids := ids + [now];
      }
    }
  }

  /** What one snapshot query returned. */
  datatype Cycle = Cycle(rows: seq<Row>, failed: bool)

  function SnapshotIn(cycle: Cycle): Option<Snapshot> {
    if cycle.failed then None else Some(SnapshotOf(cycle.rows))
  }

  /** The query ids of the queries that completed, when there is a new snapshot. */
  function CompletedIds(before: Snapshot, now: Option<Snapshot>): set<string> {
    if now.None? then {}
    else set pid | pid in CompletedPids(before, now.value) :: QueryId(pid, before[pid].start)
  }

  function Snapshots(cycles: seq<Cycle>): seq<Option<Snapshot>> {
    seq(|cycles|, k requires 0 <= k < |cycles| => SnapshotIn(cycles[k]))
  }

  ghost predicate ListsExactly(ids: seq<string>, all: set<string>) {
    (forall id :: id in ids <==> id in all) && forall i, j :: 0 <= i < j < |ids| ==> ids[i] != ids[j]
  }

  function IdsOf(before: Snapshot, pids: seq<int>): seq<string>
    requires forall pid :: pid in pids ==> pid in before
  {
    seq(|pids|, i requires 0 <= i < |pids| => QueryId(pids[i], before[pids[i]].start))
  }

  /** The ids of the first `k` cycles are listed. */
  ghost predicate AttemptsListed(run: seq<Option<Snapshot>>, ids: seq<seq<string>>, k: nat) {
    k <= |run| && |ids| == k && forall j :: 0 <= j < k ==> ListsExactly(ids[j], AttemptedIds(run, j))
  }

  lemma OneMoreListed(run: seq<Option<Snapshot>>, ids: seq<seq<string>>, k: nat, now: seq<string>)
    requires AttemptsListed(run, ids, k) && k < |run| && ListsExactly(now, AttemptedIds(run, k))
    ensures AttemptsListed(run, ids + [now], k + 1)
  {}

  lemma IdsListed(before: Snapshot, attempted: seq<int>, pids: set<int>)
    requires NoRepeat(attempted) && forall pid :: pid in attempted <==> pid in pids
    requires forall pid :: pid in pids ==> pid in before
    ensures ListsExactly(IdsOf(before, attempted), set pid | pid in pids :: QueryId(pid, before[pid].start))
  {
    var ids := IdsOf(before, attempted);
    forall i, j | 0 <= i < j < |ids| ensures ids[i] != ids[j] {
      if ids[i] == ids[j] {
        QueryIdInjective(attempted[i], before[attempted[i]].start, attempted[j], before[attempted[j]].start);
      }
    }
    forall pid | pid in pids ensures QueryId(pid, before[pid].start) in ids {
      var i :| 0 <= i < |attempted| && attempted[i] == pid;
      assert ids[i] == QueryId(pid, before[pid].start);
    }
  }

  ghost predicate NoRepeat(s: seq<int>) {
    forall i, j :: 0 <= i < j < |s| ==> s[i] != s[j]
  }

  function CountOk(attempted: seq<int>, insertOk: int -> bool): nat {
    if attempted == [] then 0
    else CountOk(attempted[..|attempted| - 1], insertOk) + if insertOk(attempted[|attempted| - 1]) then 1 else 0
  }

  /** The attempts made so far, with the PIDs of `pending` still to be looked at. */
  ghost predicate Recorded(before: Snapshot, current: Snapshot, attempted: seq<int>, pending: set<int>) {
    && NoRepeat(attempted)
    && forall pid :: pid in attempted <==> pid in CompletedPids(before, current) - pending
  }

  lemma RecordOne(before: Snapshot, current: Snapshot, attempted: seq<int>, pending: set<int>, pid: int)
    requires Recorded(before, current, attempted, pending) && pid in pending && pid in before
    ensures if pid in CompletedPids(before, current) then Recorded(before, current, attempted + [pid], pending - {pid})
            else Recorded(before, current, attempted, pending - {pid})
  {
    assert pid !in attempted;
  }

  /** Walks the previous snapshot and tries an insert for each completed query. */
  method RecordCompleted(before: Snapshot, current: Snapshot, insertOk: int -> bool)
    returns (attempted: seq<int>, inserted: nat)
    ensures forall pid :: pid in attempted <==> pid in CompletedPids(before, current)
    ensures NoRepeat(attempted) && inserted == CountOk(attempted, insertOk)
  {
    attempted, inserted := [], 0;
    var pending := before.Keys;
    while pending != {}
      invariant pending <= before.Keys
      invariant Recorded(before, current, attempted, pending)
      invariant inserted == CountOk(attempted, insertOk)
      decreases pending
    {
      SomeElement(pending);
      var pid :| pid in pending;
      var session := before[pid];
      RecordOne(before, current, attempted, pending, pid);
      if pid !in current && session.state == "active" && session.query != "" {
        assert (attempted + [pid])[..|attempted|] == attempted;
        attempted := attempted + [pid];
        if insertOk(pid) { inserted := inserted + 1; }
      }
      pending := pending - {pid};
    }
  }

  // --------------------------------------------------------------------- runs

  /** What the collector remembers before cycle `k` of a run of snapshots, of which None failed. */
  function Seen(run: seq<Option<Snapshot>>, k: nat): Snapshot
    requires k <= |run|
  {
    if k == 0 then map[] else if run[k - 1].Some? then run[k - 1].value else Seen(run, k - 1)
  }

  /** The query ids attempted in cycle `k`. */
  function AttemptedIds(run: seq<Option<Snapshot>>, k: nat): set<string>
    requires k < |run|
  {
    CompletedIds(Seen(run, k), run[k])
  }

  /** `i` and `k` are successful snapshots with none in between. */
  ghost predicate Successive(run: seq<Option<Snapshot>>, i: nat, k: nat) {
    && i < k < |run| && run[i].Some? && run[k].Some?
    && forall j :: i < j < k ==> run[j].None?
  }

  lemma {:induction false} SeenSince(run: seq<Option<Snapshot>>, i: nat, k: nat)
    requires i < k <= |run| && run[i].Some? && forall j :: i < j < k ==> run[j].None?
    ensures Seen(run, k) == run[i].value
  {
    if i < k - 1 { SeenSince(run, i, k - 1); }
  }

  lemma {:induction false} SeenComesFrom(run: seq<Option<Snapshot>>, k: nat) returns (i: nat)
    requires k <= |run| && Seen(run, k) != map[]
    ensures i < k && run[i].Some? && Seen(run, k) == run[i].value
    ensures forall j :: i < j < k ==> run[j].None?
  {
    if run[k - 1].Some? { i := k - 1; } else { i := SeenComesFrom(run, k - 1); }
  }

  /** Snapshot `i` succeeded and shows the query that `pid` started at `start`. */
  ghost predicate Shown(run: seq<Option<Snapshot>>, i: nat, pid: int, start: int) {
    i < |run| && run[i].Some? && pid in run[i].value && run[i].value[pid].start == start
  }

  ghost predicate Missing(run: seq<Option<Snapshot>>, i: nat, pid: int) {
    i < |run| && run[i].Some? && pid !in run[i].value
  }

  /** A query completed between snapshots `i` and `k`. */
  ghost predicate CompletedBetween(run: seq<Option<Snapshot>>, i: nat, k: nat, pid: int, start: int) {
    && Successive(run, i, k) && Shown(run, i, pid, start) && Missing(run, k, pid)
    && run[i].value[pid].state == "active" && run[i].value[pid].query != ""
  }

  /** A query is attempted exactly when it ran with text in one successful
      snapshot and its PID is gone from the next successful one. */
  lemma AttemptedExactly(run: seq<Option<Snapshot>>, k: nat, pid: int, start: int)
    requires k < |run|
    ensures QueryId(pid, start) in AttemptedIds(run, k) <==>
            exists i: nat :: CompletedBetween(run, i, k, pid, start)
  {
    if QueryId(pid, start) in AttemptedIds(run, k) {
      var p :| p in CompletedPids(Seen(run, k), run[k].value)
               && QueryId(pid, start) == QueryId(p, Seen(run, k)[p].start);
      QueryIdInjective(pid, start, p, Seen(run, k)[p].start);
      var i := SeenComesFrom(run, k);
      assert CompletedBetween(run, i, k, pid, start);
    }
    if exists i: nat :: CompletedBetween(run, i, k, pid, start) {
      var i: nat :| CompletedBetween(run, i, k, pid, start);
      SeenSince(run, i, k);
      assert pid in CompletedPids(Seen(run, k), run[k].value);
    }
  }

  /** A (pid, start) pair that was shown and then missing is not shown again. */
  ghost predicate NeverReturns(run: seq<Option<Snapshot>>) {
    forall i: nat, j: nat, k: nat, pid, start ::
      Shown(run, i, pid, start) && Missing(run, j, pid) && Shown(run, k, pid, start) ==> !(i < j < k)
  }

  /** Then no query id is ever attempted twice. */
  lemma NoIdTwice(run: seq<Option<Snapshot>>, k: nat, l: nat, pid: int, start: int)
    requires NeverReturns(run) && k < l < |run|
    requires QueryId(pid, start) in AttemptedIds(run, k)
    ensures QueryId(pid, start) !in AttemptedIds(run, l)
  {
    AttemptedExactly(run, k, pid, start);
    AttemptedExactly(run, l, pid, start);
    var i: nat :| CompletedBetween(run, i, k, pid, start);
    forall j: nat ensures !CompletedBetween(run, j, l, pid, start) {
      GoneForGood(run, i, k, j, l, pid, start);
    }
  }

  lemma GoneForGood(run: seq<Option<Snapshot>>, i: nat, k: nat, j: nat, l: nat, pid: int, start: int)
    requires NeverReturns(run) && k < l && CompletedBetween(run, i, k, pid, start)
    ensures !CompletedBetween(run, j, l, pid, start)
  {
    assert Successive(run, j, l) ==> k <= j;
    assert Shown(run, j, pid, start) ==> k != j;
  }
}
