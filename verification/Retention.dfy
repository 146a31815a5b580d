/** The retention script of the backup cleanup Job.

    A catalogue maps the timestamp of each backup to its type, its status and
    the backup it was taken on top of.  The script lists the successful backups
    of one type and deletes the oldest, cascading to everything that depends on
    it, until few enough are listed; it lists again after every delete. */
module Retention {
  import opened Basics

  type Timestamp = nat

  datatype Kind = Full | Incremental

  datatype Backup = Backup(kind: Kind, success: bool, base: Option<Timestamp>)

  type Catalogue = map<Timestamp, Backup>

  /** A full stands alone; an incremental was taken on top of an older backup that is still there. */
  ghost predicate WellFormed(cat: Catalogue) {
    forall t :: t in cat && cat[t].base.Some? ==>
      cat[t].kind == Incremental && cat[t].base.value < t && cat[t].base.value in cat
  }

  /** Whether restoring `t` needs `target`, directly or through other backups. */
  predicate Depends(cat: Catalogue, t: Timestamp, target: Timestamp)
    decreases t
  {
    t in cat &&
    (t == target ||
     (cat[t].base.Some? && cat[t].base.value < t && Depends(cat, cat[t].base.value, target)))
  }

  /** What a successful `backup-delete --cascade` leaves: the timestamp and its dependents are gone. */
  function DeleteCascade(cat: Catalogue, target: Timestamp): Catalogue {
    map t | t in cat && !Depends(cat, t, target) :: cat[t]
  }

  function Listed(cat: Catalogue, kind: Kind): set<Timestamp> {
    set t | t in cat && cat[t].kind == kind && cat[t].success
  }

  // ------------------------------------------------------------ sets of timestamps

  lemma {:induction false} OldestExists(s: set<Timestamp>)
    requires s != {}
    ensures exists m :: IsOldest(m, s)
  {
    SomeElement(s);
    var y :| y in s;
    var rest := s - {y};
    if rest == {} {
      forall x | x in s ensures y <= x { assert x == y || x in rest; }
      assert IsOldest(y, s);
    } else {
      OldestExists(rest);
      var m :| IsOldest(m, rest);
      OldestOf(s, y, rest, m);
    }
  }

  lemma OldestOf(s: set<Timestamp>, y: Timestamp, rest: set<Timestamp>, m: Timestamp)
    requires y in s && rest == s - {y} && IsOldest(m, rest)
    ensures IsOldest(if y < m then y else m, s)
  {
    forall x | x in s ensures (if y < m then y else m) <= x {
      if x != y { assert x in rest; }
    }
  }

  ghost predicate IsOldest(m: Timestamp, s: set<Timestamp>) { m in s && forall x :: x in s ==> m <= x }

  ghost function Oldest(s: set<Timestamp>): (m: Timestamp)
    requires s != {}
    ensures IsOldest(m, s)
  {
    OldestExists(s);
    var m :| IsOldest(m, s);
    m
  }

  /** The newest `keep` timestamps of a set. */
  ghost function Newest(s: set<Timestamp>, keep: nat): set<Timestamp>
    decreases |s|
  {
    if |s| <= keep then s else Newest(s - {Oldest(s)}, keep)
  }

  lemma {:induction false} NewestIsATopSlice(s: set<Timestamp>, keep: nat)
    ensures Newest(s, keep) <= s
    ensures |Newest(s, keep)| == if |s| <= keep then |s| else keep
    ensures forall x, y :: x in Newest(s, keep) && y in s - Newest(s, keep) ==> y < x
    decreases |s|
  {
    if |s| > keep {
      var o := Oldest(s);
      NewestIsATopSlice(s - {o}, keep);
      forall x, y | x in Newest(s, keep) && y in s - Newest(s, keep) ensures y < x {
        assert y == o || y in s - {o} - Newest(s - {o}, keep);
      }
    }
  }

  // ------------------------------------------------------------------ dependence

  lemma {:induction false} FullsStandAlone(cat: Catalogue, a: Timestamp, b: Timestamp)
    requires WellFormed(cat) && Depends(cat, a, b) && cat[a].kind == Full
    ensures a == b
  {}

  /** A smaller catalogue in which every survivor still has its base. */
  ghost predicate SubCatalogue(part: Catalogue, cat: Catalogue) {
    && part.Keys <= cat.Keys
    && (forall t :: t in part ==> part[t] == cat[t])
    && WellFormed(part)
  }

  lemma {:induction false} DependsInSub(part: Catalogue, cat: Catalogue, a: Timestamp, b: Timestamp)
    requires SubCatalogue(part, cat) && a in part
    ensures Depends(part, a, b) <==> Depends(cat, a, b)
    ensures Depends(cat, a, b) ==> b in part
    decreases a
  {
    if a != b && cat[a].base.Some? {
      assert part[a] == cat[a];
      DependsInSub(part, cat, cat[a].base.value, b);
    }
  }

  lemma CascadeIsSub(cat: Catalogue, target: Timestamp)
    requires WellFormed(cat) && target in cat
    ensures SubCatalogue(DeleteCascade(cat, target), cat)
    ensures target !in DeleteCascade(cat, target)
    ensures |DeleteCascade(cat, target)| < |cat|
  {
    var part := DeleteCascade(cat, target);
    assert Depends(cat, target, target);
    assert part.Keys <= cat.Keys - {target};
    SubsetSize(part.Keys, cat.Keys - {target});
  }

  // ------------------------------------------------------------- one count pass

  /** None of the newest `keep` listed backups depends on an older listed one. */
  ghost predicate KeepableNewest(cat: Catalogue, kind: Kind, keep: nat) {
    var newest := Newest(Listed(cat, kind), keep);
    forall x, y :: x in newest && y in Listed(cat, kind) - newest ==> !Depends(cat, x, y)
  }

  /** What holds at every moment of a pass over a catalogue that was `start`. */
  ghost predicate Pruned(start: Catalogue, cat: Catalogue, kind: Kind, keep: nat) {
    && SubCatalogue(cat, start)
    && (kind == Incremental ==> forall t :: t in start && start[t].kind == Full ==> t in cat)
    && FailedFullsStay(start, cat)
    && (KeepableNewest(start, kind, keep) ==> Newest(Listed(start, kind), keep) <= Listed(cat, kind))
  }

  lemma OldestIsBeyondNewest(all: set<Timestamp>, now: set<Timestamp>, keep: nat)
    requires Newest(all, keep) <= now <= all && |now| > keep
    ensures Oldest(now) !in Newest(all, keep)
  {
    var newest := Newest(all, keep);
    NewestIsATopSlice(all, keep);
    if now <= newest { SubsetSize(now, newest); }
    var y :| y in now && y !in newest;
    assert y in all - newest && Oldest(now) <= y;
  }

  lemma DeleteKeepsPruned(start: Catalogue, cat: Catalogue, kind: Kind, keep: nat)
    requires WellFormed(start) && Pruned(start, cat, kind, keep) && |Listed(cat, kind)| > keep
    ensures Pruned(start, DeleteCascade(cat, Oldest(Listed(cat, kind))), kind, keep)
  {
    var o := Oldest(Listed(cat, kind));
    var next := DeleteCascade(cat, o);
    CascadeIsSub(cat, o);
    forall t | t in start && start[t].kind == Full && (kind == Incremental || !start[t].success) ensures t in next {
      if Depends(cat, t, o) { FullsStandAlone(cat, t, o); }
    }
    if KeepableNewest(start, kind, keep) {
      var newest := Newest(Listed(start, kind), keep);
      OldestIsBeyondNewest(Listed(start, kind), Listed(cat, kind), keep);
      forall x | x in newest ensures x in Listed(next, kind) {
        DependsInSub(cat, start, x, o);
      }
    }
  }

  /** After a finished pass, exactly the newest `keep` are listed if and only if
      none of them depended on an older listed one. */
  lemma FinishedPassKeepsNewest(start: Catalogue, cat: Catalogue, kind: Kind, keep: nat)
    requires WellFormed(start) && Pruned(start, cat, kind, keep) && |Listed(cat, kind)| <= keep
    ensures Listed(cat, kind) == Newest(Listed(start, kind), keep) <==> KeepableNewest(start, kind, keep)
  {
    var newest := Newest(Listed(start, kind), keep);
    NewestIsATopSlice(Listed(start, kind), keep);
    if KeepableNewest(start, kind, keep) {
      SubsetSize(newest, Listed(cat, kind));
      SubsetSize(Listed(cat, kind), Listed(start, kind));
    }
    if Listed(cat, kind) == newest {
      forall x, y | x in newest && y in Listed(start, kind) - newest ensures !Depends(start, x, y) {
        DependsInSub(cat, start, x, y);
      }
    }
  }

  /** Fulls depend on nothing, so the full pass always keeps exactly the newest ones. */
  lemma FullsAreKeepable(cat: Catalogue, keep: nat)
    requires WellFormed(cat)
    ensures KeepableNewest(cat, Full, keep)
  {
    var newest := Newest(Listed(cat, Full), keep);
    NewestIsATopSlice(Listed(cat, Full), keep);
    forall x, y | x in newest && y in Listed(cat, Full) - newest ensures !Depends(cat, x, y) {
      if Depends(cat, x, y) { FullsStandAlone(cat, x, y); }
    }
  }

  /** When every listed backup depends on the oldest one, deleting that one leaves nothing listed. */
  lemma ChainGoesTogether(cat: Catalogue, kind: Kind, keep: nat)
    requires |Listed(cat, kind)| > keep > 0
    requires forall x :: x in Listed(cat, kind) ==> Depends(cat, x, Oldest(Listed(cat, kind)))
    ensures Listed(DeleteCascade(cat, Oldest(Listed(cat, kind))), kind) == {}
    ensures !KeepableNewest(cat, kind, keep)
  {
    var all := Listed(cat, kind);
    var newest := Newest(all, keep);
    NewestIsATopSlice(all, keep);
    OldestIsBeyondNewest(all, all, keep);
    SomeElement(newest);
    var x :| x in newest;
    assert Depends(cat, x, Oldest(all));
  }

  /** So the incremental pass can keep fewer than it is told to: with one chain of three
      incrementals and two to keep, deleting the oldest takes all three. */
  lemma IncrementalPassCanKeepNothing(cat: Catalogue)
    requires cat == map[1 := Backup(Full, true, None), 2 := Backup(Incremental, true, Some(1)),
                        3 := Backup(Incremental, true, Some(2)), 4 := Backup(Incremental, true, Some(3))]
    ensures WellFormed(cat) && |Listed(cat, Incremental)| == 3
    ensures Listed(DeleteCascade(cat, Oldest(Listed(cat, Incremental))), Incremental) == {}
    ensures !KeepableNewest(cat, Incremental, 2)
  {
    var all := {2, 3, 4};
    assert Listed(cat, Incremental) == all && |all| == 3;
    assert Oldest(all) == 2;
    ChainDepends(cat);
    ChainGoesTogether(cat, Incremental, 2);
  }

  lemma ChainDepends(cat: Catalogue)
    requires 2 in cat && 3 in cat && 4 in cat && cat[3].base == Some(2) && cat[4].base == Some(3)
    ensures Depends(cat, 2, 2) && Depends(cat, 3, 2) && Depends(cat, 4, 2)
  {
    assert Depends(cat, 3, 2);
  }

  // ---------------------------------------------------------------- the script

  /** The last line of a listing that has the newest backup first. */
  method LastListed(list: set<Timestamp>) returns (oldest: Timestamp)
    requires list != {}
    ensures oldest == Oldest(list)
  {
    OldestExists(list);
    oldest :| oldest in list && forall t :: t in list ==> oldest <= t;
  }

  class Script {
    var catalogue: Catalogue
    var deleted: nat

    constructor (cat: Catalogue)
      ensures catalogue == cat && deleted == 0
    {
      catalogue, deleted := cat, 0;
    }

    /** One timestamp, with cascade; the counter moves only when the delete succeeded. */
    method Delete(target: Timestamp, ok: bool)
      requires WellFormed(catalogue) && target in catalogue
      modifies this
      ensures ok ==> catalogue == DeleteCascade(old(catalogue), target) && deleted == old(deleted) + 1
      ensures !ok ==> catalogue == old(catalogue) && deleted == old(deleted)
    {
      if ok {
        catalogue := map t | t in catalogue && !Depends(catalogue, t, target) :: catalogue[t];
        deleted := deleted + 1;
      }
    }

    /** The body of the loop: the oldest listed backup is deleted, or the delete fails. */
    method DeleteOldest(kind: Kind, keep: nat, ok: bool, ghost start: Catalogue)
      requires WellFormed(start) && Pruned(start, catalogue, kind, keep) && |Listed(catalogue, kind)| > keep
      modifies this
      ensures Pruned(start, catalogue, kind, keep)
      ensures ok ==> |catalogue| < |old(catalogue)| && deleted == old(deleted) + 1
      ensures ok ==> catalogue == DeleteCascade(old(catalogue), Oldest(Listed(old(catalogue), kind)))
      ensures !ok ==> catalogue == old(catalogue) && deleted == old(deleted)
    {
      var oldest := LastListed(Listed(catalogue, kind));
      DeleteKeepsPruned(start, catalogue, kind, keep);
      CascadeIsSub(catalogue, oldest);
      Delete(oldest, ok);
    }

    /** The loop of one type.  `outcomes` says which deletes succeed; the loop is
        followed for as long as there are outcomes. */
    method CountBlock(kind: Kind, keep: nat, outcomes: seq<bool>) returns (finished: bool)
      requires WellFormed(catalogue)
      modifies this
      ensures Pruned(old(catalogue), catalogue, kind, keep)
      ensures finished ==> |Listed(catalogue, kind)| <= keep
      ensures Successes(outcomes, |outcomes|) >= |old(catalogue)| ==> finished
      ensures old(deleted) <= deleted && deleted - old(deleted) <= |old(catalogue)| - |catalogue|
      ensures (forall i :: 0 <= i < |outcomes| ==> !outcomes[i]) ==>
                catalogue == old(catalogue) && (finished <==> |Listed(catalogue, kind)| <= keep)
    {
      assert Pruned(catalogue, catalogue, kind, keep) by { NewestIsATopSlice(Listed(catalogue, kind), keep); }
      ghost var start := catalogue;
      var i := 0;
      while |Listed(catalogue, kind)| > keep
        invariant 0 <= i <= |outcomes|
        invariant Pruned(start, catalogue, kind, keep)
        invariant old(deleted) <= deleted && deleted - old(deleted) <= |start| - |catalogue|
        invariant |catalogue| + Successes(outcomes, i) <= |start|
        invariant (forall j :: 0 <= j < i ==> !outcomes[j]) ==> catalogue == start
        decreases |outcomes| - i
      {
        if i == |outcomes| {
          SubsetSize(Listed(catalogue, kind), catalogue.Keys);
          return false;
        }
        DeleteOldest(kind, keep, outcomes[i], start);
        i := i + 1;
      }
      return true;
    }

    /** The time-based step.  `cleaned` is what `backup-clean --cascade` left, whether or not it failed half way. */
    method MaxAgeBlock(cleaned: Catalogue)
      requires SubCatalogue(cleaned, catalogue)
      modifies this
      ensures catalogue == cleaned
      ensures deleted == old(deleted) + |AllListed(old(catalogue))| - |AllListed(catalogue)|
      ensures old(deleted) <= deleted && deleted - old(deleted) <= |old(catalogue)| - |catalogue|
    {
      var before := |Listed(catalogue, Full)| + |Listed(catalogue, Incremental)|;
      ghost var was := catalogue;
      catalogue := cleaned;
      var after := |Listed(catalogue, Full)| + |Listed(catalogue, Incremental)|;
      RemovedListedBound(was, cleaned);
      ListedBothKinds(was);
      ListedBothKinds(cleaned);
      if before > after { deleted := deleted + before - after; }
    }

    /** The whole script.  `outcomes` says which deletes of each pass succeed, and a pass that is
        still going when its outcomes are used up ends the account.  `clean` is the effect of
        the time-based step on a catalogue, when there is one. */
    method Run(fullCount: nat, incrementalCount: nat, clean: Option<Catalogue -> Catalogue>,
               outcomes: Kind -> seq<bool>) returns (finished: bool)
      requires WellFormed(catalogue) && deleted == 0
      requires clean.Some? ==> forall c: Catalogue :: WellFormed(c) ==> SubCatalogue(clean.value(c), c)
      modifies this
      ensures SubCatalogue(catalogue, old(catalogue))
      ensures deleted <= |old(catalogue)| - |catalogue|
      ensures finished ==> Listed(catalogue, Full) == KeptFulls(old(catalogue), fullCount) * catalogue.Keys
      ensures finished && clean.None? ==> Listed(catalogue, Full) == KeptFulls(old(catalogue), fullCount)
      ensures fullCount == 0 && clean.None? ==> Listed(catalogue, Full) == Listed(old(catalogue), Full)
      ensures finished && incrementalCount > 0 ==> |Listed(catalogue, Incremental)| <= incrementalCount
      ensures clean.None? ==> FailedFullsStay(old(catalogue), catalogue)
      ensures fullCount == 0 && incrementalCount == 0 ==>
                && finished
                && catalogue == (if clean.Some? then clean.value(old(catalogue)) else old(catalogue))
                && deleted == |AllListed(old(catalogue))| - |AllListed(catalogue)|
      ensures finished && clean.Some? ==>
                exists last :: SubCatalogue(last, old(catalogue)) && FailedFullsStay(old(catalogue), last)
                               && Listed(last, Full) == KeptFulls(old(catalogue), fullCount)
                               && catalogue == clean.value(last)
      ensures (forall kind :: Successes(outcomes(kind), |outcomes(kind)|) >= |old(catalogue)|) ==> finished
    {
      ghost var start := catalogue;
      SubRefl(start);
      finished := RunFullPass(fullCount, outcomes(Full));
      if !finished { return; }
      ghost var mid := catalogue;
      SubSizes(mid, start);
      finished := RunIncrementalPass(incrementalCount, outcomes(Incremental));
      SubTransitive(catalogue, mid, start);
      if !finished { return; }
      ghost var last := catalogue;
      if clean.Some? { MaxAgeBlock(clean.value(catalogue)); } else { SubRefl(last); }
      SubSizes(catalogue, last);
      SubTransitive(catalogue, last, start);
    }

    /** A count of 0 means no pass at all. */
    method RunFullPass(keep: nat, outcomes: seq<bool>) returns (finished: bool)
      requires WellFormed(catalogue)
      modifies this
      ensures SubCatalogue(catalogue, old(catalogue)) && FailedFullsStay(old(catalogue), catalogue)
      ensures old(deleted) <= deleted && deleted - old(deleted) <= |old(catalogue)| - |catalogue|
      ensures keep == 0 ==> finished && catalogue == old(catalogue) && deleted == old(deleted)
      ensures finished && keep > 0 ==> Listed(catalogue, Full) == Newest(Listed(old(catalogue), Full), keep)
      ensures Successes(outcomes, |outcomes|) >= |old(catalogue)| ==> finished
    {
      if keep == 0 {
        SubRefl(catalogue);
        return true;
      }
      finished := CountBlock(Full, keep, outcomes);
      FullsAreKeepable(old(catalogue), keep);
      if finished { FinishedPassKeepsNewest(old(catalogue), catalogue, Full, keep); }
    }

    method RunIncrementalPass(keep: nat, outcomes: seq<bool>) returns (finished: bool)
      requires WellFormed(catalogue)
      modifies this
      ensures SubCatalogue(catalogue, old(catalogue)) && Listed(catalogue, Full) == Listed(old(catalogue), Full)
      ensures FailedFullsStay(old(catalogue), catalogue)
      ensures old(deleted) <= deleted && deleted - old(deleted) <= |old(catalogue)| - |catalogue|
      ensures keep == 0 ==> finished && catalogue == old(catalogue) && deleted == old(deleted)
      ensures finished && keep > 0 ==> |Listed(catalogue, Incremental)| <= keep
      ensures Successes(outcomes, |outcomes|) >= |old(catalogue)| ==> finished
    {
      if keep == 0 {
        SubRefl(catalogue);
        return true;
      }
      finished := CountBlock(Incremental, keep, outcomes);
      IncrementalPassKeepsFulls(old(catalogue), catalogue, keep);
    }
  }

  /** The fulls that a finished pass leaves: the newest ones, or all when no count is set. */
  ghost function KeptFulls(start: Catalogue, count: nat): set<Timestamp> {
    if count > 0 then Newest(Listed(start, Full), count) else Listed(start, Full)
  }

  /** The passes never touch a full that did not succeed. */
  ghost predicate FailedFullsStay(start: Catalogue, cat: Catalogue) {
    forall t :: t in start && start[t].kind == Full && !start[t].success ==> t in cat
  }

  /** How many of the first `n` deletes succeed. */
  function Successes(outcomes: seq<bool>, n: nat): nat
    requires n <= |outcomes|
  {
    if n == 0 then 0 else Successes(outcomes, n - 1) + if outcomes[n - 1] then 1 else 0
  }

  lemma SubRefl(cat: Catalogue)
    requires WellFormed(cat)
    ensures SubCatalogue(cat, cat)
  {}

  lemma SubSizes(part: Catalogue, cat: Catalogue)
    requires SubCatalogue(part, cat)
    ensures |part| <= |cat|
    ensures Listed(part, Full) == Listed(cat, Full) * part.Keys
    ensures |Listed(part, Incremental)| <= |Listed(cat, Incremental)|
  {
    SubsetSize(part.Keys, cat.Keys);
    SubsetSize(Listed(part, Incremental), Listed(cat, Incremental));
  }

  lemma SubTransitive(a: Catalogue, b: Catalogue, c: Catalogue)
    requires SubCatalogue(a, b) && SubCatalogue(b, c)
    ensures SubCatalogue(a, c)
  {}

  lemma IncrementalPassKeepsFulls(start: Catalogue, cat: Catalogue, keep: nat)
    requires Pruned(start, cat, Incremental, keep)
    ensures Listed(cat, Full) == Listed(start, Full)
  {}

  lemma DifferenceSize<T>(all: set<T>, part: set<T>)
    requires part <= all
    ensures |all - part| == |all| - |part|
  {
    assert all == part + (all - part);
  }

  /** All backups that the listings show. */
  function AllListed(cat: Catalogue): set<Timestamp> { Listed(cat, Full) + Listed(cat, Incremental) }

  lemma ListedBothKinds(cat: Catalogue)
    ensures |AllListed(cat)| == |Listed(cat, Full)| + |Listed(cat, Incremental)|
    ensures AllListed(cat) <= cat.Keys
  {
    assert Listed(cat, Full) !! Listed(cat, Incremental);
  }

  lemma RemovedListedBound(cat: Catalogue, part: Catalogue)
    requires SubCatalogue(part, cat)
    ensures 0 <= |AllListed(cat)| - |AllListed(part)| <= |cat| - |part|
  {
    ListedBothKinds(cat);
    ListedBothKinds(part);
    var was, now := AllListed(cat), AllListed(part);
    SubsetSize(now, was);
    assert was - now <= cat.Keys - part.Keys;
    SubsetSize(was - now, cat.Keys - part.Keys);
    DifferenceSize(was, now);
    DifferenceSize(cat.Keys, part.Keys);
    SubsetSize(part.Keys, cat.Keys);
  }
}
