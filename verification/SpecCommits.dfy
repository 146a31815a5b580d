/** Concurrent edits of one cluster object under optimistic concurrency.

    Each handler checks its request on an object it has read, fetches the object
    anew, runs its closure on what it fetched and writes the result back.  The
    write goes through only if the object has not changed since that fetch, and a
    conflict starts over.  Reads may be stale, a write may go through without the
    handler learning of it, and other writers may update the object without
    touching servers and jobs. */
module SpecCommits {
  import opened Basics
  import opened NamedList
  import opened DataLoading

  datatype Phase =
    | Arrived
    | Rejected(version: nat)
    | Trying
    | Fetched(version: nat)
    | Committed(version: nat)
    | Refused(version: nat, error: Error)
    | Failed

  /** `history` holds every version of the object; `authors[i]` is the handler
      whose write made version i + 1 out of version i, if one did. */
  datatype State = State(requests: seq<Request>, history: seq<Spec>, authors: seq<Option<nat>>, phases: seq<Phase>)

  datatype Action =
    | Fetch(handler: nat, version: nat)
    | Precheck(handler: nat, version: nat)
    | Attempt(handler: nat, replyLost: bool)
    | GiveUp(handler: nat)
    | OtherWrite

  ghost predicate Shaped(s: State) {
    && |s.phases| == |s.requests|
    && |s.history| == |s.authors| + 1
  }

  predicate UnderWay(p: Phase) { p.Arrived? || p.Trying? || p.Fetched? }

  ghost predicate Enabled(s: State, a: Action) {
    && Shaped(s)
    && match a
       case Fetch(h, v) => h < |s.phases| && s.phases[h].Trying? && v < |s.history|
       case Precheck(h, v) => h < |s.phases| && s.phases[h].Arrived? && v < |s.history|
       case Attempt(h, _) => h < |s.phases| && s.phases[h].Fetched? && s.phases[h].version < |s.history|
       case GiveUp(h) => h < |s.phases| && UnderWay(s.phases[h])
       case OtherWrite => true
  }

  ghost function Step(s: State, a: Action): State
    requires Enabled(s, a)
  {
    match a
    case Fetch(h, v) => s.(phases := s.phases[h := Fetched(v)])
    case Precheck(h, v) =>
      s.(phases := s.phases[h := if Rejects(s.requests[h], s.history[v]) then Rejected(v) else Trying])
    case Attempt(h, replyLost) =>
      var v := s.phases[h].version;
      (match Apply(s.requests[h], s.history[v])
       case Err(e) => s.(phases := s.phases[h := Refused(v, e)])
       case Ok(edited) =>
         if v == |s.authors| then
           s.(history := s.history + [edited], authors := s.authors + [Some(h)],
              phases := s.phases[h := if replyLost then Failed else Committed(v)])
         else s.(phases := s.phases[h := Trying]))
    case GiveUp(h) => s.(phases := s.phases[h := Failed])
    case OtherWrite => s.(history := s.history + [s.history[|s.authors|]], authors := s.authors + [None])
  }

  ghost function Initial(requests: seq<Request>, spec: Spec): State {
    State(requests, [spec], [], seq(|requests|, i => Arrived))
  }

  datatype Run = Run(actions: seq<Action>, states: seq<State>)

  ghost predicate StepAt(run: Run, i: nat)
    requires i < |run.actions| && |run.states| == |run.actions| + 1
  {
    Enabled(run.states[i], run.actions[i]) && run.states[i + 1] == Step(run.states[i], run.actions[i])
  }

  ghost predicate IsRun(run: Run, requests: seq<Request>, spec: Spec) {
    && |run.states| == |run.actions| + 1
    && run.states[0] == Initial(requests, spec)
    && forall i :: 0 <= i < |run.actions| ==> StepAt(run, i)
  }

  // ------------------------------------------------------------------ invariant

  /** Version i + 1 is what its author's request makes of version i. */
  ghost predicate Explained(s: State, i: nat)
    requires Shaped(s) && i < |s.authors|
  {
    match s.authors[i]
    case None => s.history[i + 1] == s.history[i]
    case Some(h) => h < |s.requests| && Apply(s.requests[h], s.history[i]) == Ok(s.history[i + 1])
  }

  ghost predicate PhaseOk(s: State, h: nat)
    requires Shaped(s) && h < |s.phases|
  {
    match s.phases[h]
    case Arrived => Some(h) !in s.authors
    case Rejected(v) => Some(h) !in s.authors && v < |s.history| && Rejects(s.requests[h], s.history[v])
    case Trying => Some(h) !in s.authors
    case Fetched(v) => Some(h) !in s.authors && v < |s.history|
    case Committed(v) => v < |s.authors| && s.authors[v] == Some(h)
    case Refused(v, e) => Some(h) !in s.authors && v < |s.history| && Apply(s.requests[h], s.history[v]).Err?
    case Failed => true
  }

  ghost predicate AtMostOnce(authors: seq<Option<nat>>) {
    forall i, j :: 0 <= i < |authors| && 0 <= j < |authors| && authors[i].Some? && authors[i] == authors[j] ==> i == j
  }

  ghost predicate Inv(s: State) {
    && Shaped(s)
    && (forall i :: 0 <= i < |s.authors| ==> Explained(s, i))
    && (forall h :: 0 <= h < |s.phases| ==> PhaseOk(s, h))
    && AtMostOnce(s.authors)
  }

  lemma CommitKeepsInv(s: State, spec: Spec, author: Option<nat>, t: State)
    requires Inv(s)
    requires author.Some? ==> author.value < |s.phases| && author !in s.authors
    requires t.requests == s.requests && t.history == s.history + [spec] && t.authors == s.authors + [author]
    requires |t.phases| == |s.phases|
    requires forall h :: 0 <= h < |s.phases| && author != Some(h) ==> t.phases[h] == s.phases[h]
    requires author.Some? ==> t.phases[author.value] == Failed || t.phases[author.value] == Committed(|s.authors|)
    requires Explained(t, |s.authors|)
    ensures Inv(t)
  {
    forall i | 0 <= i < |t.authors| ensures Explained(t, i) {
      if i < |s.authors| { assert Explained(s, i); }
    }
    forall h | 0 <= h < |t.phases| ensures PhaseOk(t, h) {
      assert PhaseOk(s, h);
      if author == Some(h) { assert t.authors[|s.authors|] == Some(h); }
    }
  }

  lemma PhaseChangeKeepsInv(s: State, h: nat, p: Phase)
    requires Inv(s) && h < |s.phases| && UnderWay(s.phases[h])
    requires PhaseOk(s.(phases := s.phases[h := p]), h)
    ensures Inv(s.(phases := s.phases[h := p]))
  {
    var t := s.(phases := s.phases[h := p]);
    forall i | 0 <= i < |t.authors| ensures Explained(t, i) { assert Explained(s, i); }
    forall g | 0 <= g < |t.phases| ensures PhaseOk(t, g) { assert PhaseOk(s, g); }
  }

  lemma AttemptKeepsInv(s: State, a: Action)
    requires Inv(s) && Enabled(s, a) && a.Attempt?
    ensures Inv(Step(s, a))
  {
    var h := a.handler;
    var v := s.phases[h].version;
    assert PhaseOk(s, h);
    var result := Apply(s.requests[h], s.history[v]);
    if result.Err? {
      PhaseChangeKeepsInv(s, h, Refused(v, result.error));
    } else if v == |s.authors| {
      CommitKeepsInv(s, result.value, Some(h), Step(s, a));
    } else {
      PhaseChangeKeepsInv(s, h, Trying);
    }
  }

  lemma StepKeepsInv(s: State, a: Action)
    requires Inv(s) && Enabled(s, a)
    ensures Inv(Step(s, a)) && Step(s, a).requests == s.requests
    ensures s.history <= Step(s, a).history
  {
    match a
    case Fetch(h, v) =>
      assert PhaseOk(s, h);
      PhaseChangeKeepsInv(s, h, Fetched(v));
    case Precheck(h, v) =>
      assert PhaseOk(s, h);
      PhaseChangeKeepsInv(s, h, Step(s, a).phases[h]);
    case Attempt(_, _) => AttemptKeepsInv(s, a);
    case GiveUp(h) => PhaseChangeKeepsInv(s, h, Failed);
    case OtherWrite => CommitKeepsInv(s, s.history[|s.authors|], None, Step(s, a));
  }

  lemma {:induction false} RunInv(run: Run, requests: seq<Request>, spec: Spec, k: nat)
    requires IsRun(run, requests, spec) && k <= |run.actions|
    ensures Inv(run.states[k]) && run.states[k].requests == requests && run.states[k].history[0] == spec
  {
    if k > 0 {
      RunInv(run, requests, spec, k - 1);
      assert StepAt(run, k - 1);
      StepKeepsInv(run.states[k - 1], run.actions[k - 1]);
    }
  }

  // ------------------------------------------------------------- serializability

  /** The requests of `authors`, one after the other, on the keyed store. */
  ghost function Replay(requests: seq<Request>, authors: seq<Option<nat>>, st: Store): Option<Store> {
    if authors == [] then Some(st)
    else
      var n := |authors| - 1;
      var before := Replay(requests, authors[..n], st);
      if before.None? || authors[n].None? then before
      else if authors[n].value >= |requests| then None
      else
        var after := Meaning(requests[authors[n].value], before.value);
        if after.Ok? then Some(after.value) else None
  }

  lemma VersionStep(s: State, i: nat)
    requires Inv(s) && i < |s.authors| && WellFormed(s.history[i])
    ensures WellFormed(s.history[i + 1])
    ensures s.authors[i].None? ==> View(s.history[i + 1]) == View(s.history[i])
    ensures s.authors[i].Some? ==>
              s.authors[i].value < |s.requests|
              && Meaning(s.requests[s.authors[i].value], View(s.history[i])) == Ok(View(s.history[i + 1]))
  {
    assert Explained(s, i);
    if s.authors[i].Some? { EditsRefine(s.requests[s.authors[i].value], s.history[i]); }
  }

  lemma {:induction false} VersionsReplay(s: State, k: nat)
    requires Inv(s) && k < |s.history| && WellFormed(s.history[0])
    ensures WellFormed(s.history[k])
    ensures Replay(s.requests, s.authors[..k], View(s.history[0])) == Some(View(s.history[k]))
  {
    if k > 0 {
      VersionsReplay(s, k - 1);
      VersionStep(s, k - 1);
      assert s.authors[..k] == s.authors[..k - 1] + [s.authors[k - 1]];
      ReplayOneMore(s.requests, s.authors[..k - 1], s.authors[k - 1], View(s.history[0]), View(s.history[k - 1]));
    }
  }

  lemma ReplayOneMore(requests: seq<Request>, authors: seq<Option<nat>>, author: Option<nat>, st: Store, last: Store)
    requires Replay(requests, authors, st) == Some(last) && (author.Some? ==> author.value < |requests|)
    ensures author.None? ==> Replay(requests, authors + [author], st) == Some(last)
    ensures author.Some? && Meaning(requests[author.value], last).Ok? ==>
              Replay(requests, authors + [author], st) == Some(Meaning(requests[author.value], last).value)
  {
    assert (authors + [author])[..|authors|] == authors;
  }

  /** In every run, whatever the interleaving: names are unique in every version, the
      current object is what the committed requests make of the first one when they
      are carried out one at a time in commit order, no request is carried out
      twice, and every handler that reports success is among them. */
  lemma Serializable(run: Run, requests: seq<Request>, spec: Spec, k: nat)
    requires IsRun(run, requests, spec) && k <= |run.actions| && WellFormed(spec)
    ensures var s := run.states[k];
            && Shaped(s)
            && (forall i :: 0 <= i < |s.history| ==> WellFormed(s.history[i]))
            && Replay(requests, s.authors, View(spec)) == Some(View(s.history[|s.authors|]))
            && AtMostOnce(s.authors)
            && (forall h :: 0 <= h < |s.phases| && s.phases[h].Committed? ==> Some(h) in s.authors)
            && (forall h :: 0 <= h < |s.phases| && (s.phases[h].Refused? || s.phases[h].Rejected?) ==>
                  Some(h) !in s.authors)
  {
    RunInv(run, requests, spec, k);
    var s := run.states[k];
    forall i | 0 <= i < |s.history| ensures WellFormed(s.history[i]) { VersionsReplay(s, i); }
    VersionsReplay(s, |s.authors|);
    assert s.authors[..|s.authors|] == s.authors;
    forall h | 0 <= h < |s.phases|
      ensures s.phases[h].Committed? ==> Some(h) in s.authors
      ensures s.phases[h].Refused? || s.phases[h].Rejected? ==> Some(h) !in s.authors
    {
      assert PhaseOk(s, h);
    }
  }

  /** A server that one version has and the next has not was deleted by name, and no job of
      the version it was deleted from refers to it. */
  lemma NoServerLeavesWhileInUse(run: Run, requests: seq<Request>, spec: Spec, k: nat, i: nat, name: string)
    requires IsRun(run, requests, spec) && k <= |run.actions| && WellFormed(spec)
    requires i + 1 < |run.states[k].history|
    requires HasServer(run.states[k].history[i], name) && !HasServer(run.states[k].history[i + 1], name)
    ensures var s := run.states[k];
            i < |s.authors| && s.authors[i].Some? && s.authors[i].value < |requests|
            && requests[s.authors[i].value] == DeleteServer(name)
            && forall j :: 0 <= j < |JobsOf(s.history[i])| && JobsOf(s.history[i])[j].body.pxfJob.Some? ==>
                 JobsOf(s.history[i])[j].body.pxfJob.value.server != name
  {
    RunInv(run, requests, spec, k);
    var s := run.states[k];
    assert Explained(s, i);
    VersionsReplay(s, i);
    var r, before := requests[s.authors[i].value], s.history[i];
    EditsRefine(r, before);
    ServerInView(before, name);
    ServerInView(s.history[i + 1], name);
    RemovedServersAreUnused(r, View(before), name);
    forall j | 0 <= j < |JobsOf(before)| && JobsOf(before)[j].body.pxfJob.Some?
      ensures JobsOf(before)[j].body.pxfJob.value.server != name
    {
      MapAt(JobsOf(before), j);
    }
  }

  /** A stale write costs the handler another attempt and nothing else: it neither commits nor gives up. */
  lemma StaleAttemptsAreRepeated(s: State, h: nat, replyLost: bool)
    requires Inv(s) && Enabled(s, Attempt(h, replyLost)) && s.phases[h].version < |s.authors|
    requires Apply(s.requests[h], s.history[s.phases[h].version]).Ok?
    ensures Step(s, Attempt(h, replyLost)) == s.(phases := s.phases[h := Trying])
  {}

  /** A handler that is not rejected and is left alone for three steps settles: its request is
      committed on the current version, or refused for the reason that version gives. */
  lemma AloneItSettles(s: State, h: nat)
    requires Inv(s) && h < |s.phases| && s.phases[h].Arrived?
    requires !Rejects(s.requests[h], s.history[|s.authors|])
    ensures var now := |s.authors|;
            Enabled(s, Precheck(h, now)) && var a := Step(s, Precheck(h, now));
            Enabled(a, Fetch(h, now)) && var b := Step(a, Fetch(h, now));
            Enabled(b, Attempt(h, false)) && var c := Step(b, Attempt(h, false));
            match Apply(s.requests[h], s.history[now])
            case Ok(edited) => c.phases[h] == Committed(now) && c.history == s.history + [edited]
            case Err(e) => c.phases[h] == Refused(now, e) && c.history == s.history
  {}

  /** A rejected request ends at its check and changes nothing. */
  lemma RejectedAtTheCheck(s: State, h: nat, v: nat)
    requires Enabled(s, Precheck(h, v)) && Rejects(s.requests[h], s.history[v])
    ensures Step(s, Precheck(h, v)) == s.(phases := s.phases[h := Rejected(v)])
  {}

  ghost predicate HasServer(s: Spec, name: string) {
    ServersOf(s).Some? && HasName(ServersOf(s).value, name)
  }

  lemma ServerInView(s: Spec, name: string)
    requires WellFormed(s)
    ensures HasServer(s, name) <==> View(s).servers.Some? && name in View(s).servers.value
  {
    if ServersOf(s).Some? { MapKeys(ServersOf(s).value, name); }
  }

  // ------------------------------------------------------ referential integrity

  /** Every server that a job of this version refers to is defined in it. */
  ghost predicate Intact(s: Spec) {
    WellFormed(s) && Integrity(View(s))
  }

  /** Version i + 1 was made by a job write that named a server which version i does not define. */
  ghost predicate DangledAt(s: State, i: nat)
    requires Shaped(s) && i < |s.authors|
  {
    && s.authors[i].Some? && s.authors[i].value < |s.requests| && WellFormed(s.history[i])
    && Dangles(s.requests[s.authors[i].value], View(s.history[i]))
  }

  lemma IntactStep(s: State, i: nat)
    requires Inv(s) && i < |s.authors| && Intact(s.history[i])
    ensures Intact(s.history[i + 1]) <==> !DangledAt(s, i)
  {
    VersionStep(s, i);
    if s.authors[i].Some? { IntegrityKeptExactly(s.requests[s.authors[i].value], View(s.history[i])); }
  }

  lemma {:induction false} IntactWithoutDangling(s: State, k: nat)
    requires Inv(s) && k < |s.history| && Intact(s.history[0])
    requires forall i :: 0 <= i < k ==> !DangledAt(s, i)
    ensures Intact(s.history[k])
  {
    if k > 0 {
      IntactWithoutDangling(s, k - 1);
      IntactStep(s, k - 1);
    }
  }

  /** In every run, all versions keep their references intact if and only if no committed
      job write named a server that was missing from the version it replaced. */
  lemma IntactExactly(run: Run, requests: seq<Request>, spec: Spec, k: nat)
    requires IsRun(run, requests, spec) && k <= |run.actions| && Intact(spec)
    ensures var s := run.states[k];
            Shaped(s) && ((forall i :: 0 <= i < |s.history| ==> Intact(s.history[i])) <==>
                          (forall i :: 0 <= i < |s.authors| ==> !DangledAt(s, i)))
  {
    RunInv(run, requests, spec, k);
    var s := run.states[k];
    if forall i :: 0 <= i < |s.authors| ==> !DangledAt(s, i) {
      forall i | 0 <= i < |s.history| ensures Intact(s.history[i]) { IntactWithoutDangling(s, i); }
    }
    if forall i :: 0 <= i < |s.history| ==> Intact(s.history[i]) {
      forall i | 0 <= i < |s.authors| ensures !DangledAt(s, i) {
        assert Intact(s.history[i]) && Intact(s.history[i + 1]);
        IntactStep(s, i);
      }
    }
  }

  ghost function Extended(run: Run, a: Action): Run
    requires |run.states| == |run.actions| + 1 && Enabled(run.states[|run.actions|], a)
  {
    Run(run.actions + [a], run.states + [Step(run.states[|run.actions|], a)])
  }

  lemma ExtendedIsRun(run: Run, requests: seq<Request>, spec: Spec, a: Action)
    requires IsRun(run, requests, spec) && Enabled(run.states[|run.actions|], a)
    ensures IsRun(Extended(run, a), requests, spec)
  {
    var ext := Extended(run, a);
    forall k | 0 <= k < |ext.actions| ensures StepAt(ext, k) {
      if k < |run.actions| { assert StepAt(run, k); }
    }
  }

  lemma BothChecked(rs: seq<Request>, a: Spec) returns (run: Run)
    requires |rs| == 2 && !Rejects(rs[0], a) && !Rejects(rs[1], a)
    ensures IsRun(run, rs, a) && run.states[|run.actions|] == State(rs, [a], [], [Trying, Trying])
  {
    run := Run([], [Initial(rs, a)]);
    assert Initial(rs, a) == State(rs, [a], [], [Arrived, Arrived]);
    ExtendedIsRun(run, rs, a, Precheck(0, 0));
    run := Extended(run, Precheck(0, 0));
    assert run.states[|run.actions|] == State(rs, [a], [], [Trying, Arrived]);
    ExtendedIsRun(run, rs, a, Precheck(1, 0));
    run := Extended(run, Precheck(1, 0));
  }

  /** Both handlers pass their checks on the first version; the second one commits first. */
  lemma OvertakenRun(rs: seq<Request>, a: Spec, b: Spec, c: Spec) returns (run: Run)
    requires |rs| == 2 && !Rejects(rs[0], a) && !Rejects(rs[1], a)
    requires Apply(rs[1], a) == Ok(b) && Apply(rs[0], b) == Ok(c)
    ensures IsRun(run, rs, a)
    ensures run.states[|run.actions|] == State(rs, [a, b, c], [Some(1), Some(0)], [Committed(1), Committed(0)])
  {
    run := BothChecked(rs, a);
    ExtendedIsRun(run, rs, a, Fetch(1, 0));
    run := Extended(run, Fetch(1, 0));
    assert run.states[|run.actions|] == State(rs, [a], [], [Trying, Fetched(0)]);
    run := OvertakenEnd(run, rs, a, b, c);
  }

  lemma OvertakenEnd(start: Run, rs: seq<Request>, a: Spec, b: Spec, c: Spec) returns (run: Run)
    requires |rs| == 2 && Apply(rs[1], a) == Ok(b) && Apply(rs[0], b) == Ok(c)
    requires IsRun(start, rs, a) && start.states[|start.actions|] == State(rs, [a], [], [Trying, Fetched(0)])
    ensures IsRun(run, rs, a)
    ensures run.states[|run.actions|] == State(rs, [a, b, c], [Some(1), Some(0)], [Committed(1), Committed(0)])
  {
    ExtendedIsRun(start, rs, a, Attempt(1, false));
    run := Extended(start, Attempt(1, false));
    assert run.states[|run.actions|] == State(rs, [a, b], [Some(1)], [Trying, Committed(0)]);
    ExtendedIsRun(run, rs, a, Fetch(0, 1));
    run := Extended(run, Fetch(0, 1));
    assert run.states[|run.actions|] == State(rs, [a, b], [Some(1)], [Fetched(1), Committed(0)]);
    ExtendedIsRun(run, rs, a, Attempt(0, false));
    run := Extended(run, Attempt(0, false));
  }

  /** A job is created after its server was deleted, although its handler had checked the server:
      both handlers report success and the last version has a dangling reference. */
  lemma CheckedJobCanDangle(server: Named<ServerBody>, job: JobBody) returns (run: Run)
    requires job.pxfJob.Some? && job.pxfJob.value.server == server.name
    ensures var spec := Some(DataLoadingSpec(Some([server]), []));
            && IsRun(run, [CreateJob("load", job), DeleteServer(server.name)], spec) && Intact(spec)
            && var s := run.states[|run.actions|];
               && s.phases == [Committed(1), Committed(0)] && |s.history| == 3 && !Intact(s.history[2])
  {
    var a: Spec := Some(DataLoadingSpec(Some([server]), []));
    var b: Spec := Some(DataLoadingSpec(Some([]), []));
    var c: Spec := Some(DataLoadingSpec(Some([]), [Named("load", job)]));
    assert IndexOf([server], server.name) == 0;
    assert Removed([server], 0) == [];
    assert [] + [Named("load", job)] == [Named("load", job)];
    run := OvertakenRun([CreateJob("load", job), DeleteServer(server.name)], a, b, c);
    JobWithoutServer(c, Named("load", job));
  }

  lemma JobWithoutServer(c: Spec, job: Named<JobBody>)
    requires c == Some(DataLoadingSpec(Some([]), [job])) && job.body.pxfJob.Some?
    ensures !Intact(c)
  {
    if WellFormed(c) {
      MapAt(JobsOf(c), 0);
      assert !Defined(View(c), job.body.pxfJob.value.server);
    }
  }
}
