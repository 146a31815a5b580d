/** Agreement of the operator replicas on the API admin password.

    Replicas without the environment override race through read, create and
    re-read of one Secret.  A read may be stale: it may return any version the
    Secret has had.  A create that reports an error may still have been applied. */
module AdminPassword {
  import opened Basics

  /** A Secret without the password key is `Present("")`. */
  datatype Secret = Absent | Present(password: string)

  datatype Pc =
    | Start
    | Creating
    | Conflicted
    | Returned(result: Option<string>)

  datatype State = State(history: seq<Secret>, pcs: map<nat, Pc>)

  datatype Action =
    | Read(replica: nat, version: nat)
    | ReadError(replica: nat)
    | Create(replica: nat, generated: string)
    | CreateError(replica: nat, generated: string, applied: bool)
    | Reread(replica: nat, version: nat)
    | RereadError(replica: nat)

  function PcOf(s: State, r: nat): Pc {
    if r in s.pcs then s.pcs[r] else Start
  }

  function Current(s: State): Secret
    requires s.history != []
  {
    s.history[|s.history| - 1]
  }

  /** A generated password is never empty. */
  predicate Enabled(s: State, a: Action) {
    && s.history != []
    && match a
       case Read(r, v) => PcOf(s, r).Start? && v < |s.history|
       case ReadError(r) => PcOf(s, r).Start?
       case Create(r, g) => PcOf(s, r).Creating? && g != ""
       case CreateError(r, g, _) => PcOf(s, r).Creating? && g != ""
       case Reread(r, v) => PcOf(s, r).Conflicted? && v < |s.history|
       case RereadError(r) => PcOf(s, r).Conflicted?
  }

  function Move(s: State, r: nat, pc: Pc): State {
    s.(pcs := s.pcs[r := pc])
  }

  function CreateIfAbsent(s: State, g: string): State
    requires s.history != []
  {
    if Current(s) == Absent then s.(history := s.history + [Present(g)]) else s
  }

  function Step(s: State, a: Action): State
    requires Enabled(s, a)
  {
    match a
    case Read(r, v) =>
      var seen := s.history[v];
      if seen.Present? && seen.password != "" then Move(s, r, Returned(Some(seen.password)))
      else Move(s, r, Creating)
    case ReadError(r) => Move(s, r, Returned(None))
    case Create(r, g) =>
      if Current(s) == Absent then Move(CreateIfAbsent(s, g), r, Returned(Some(g)))
      else Move(s, r, Conflicted)
    case CreateError(r, g, applied) =>
      Move(if applied then CreateIfAbsent(s, g) else s, r, Returned(None))
    case Reread(r, v) =>
      var seen := s.history[v];
      Move(s, r, Returned(if seen.Present? && seen.password != "" then Some(seen.password) else None))
    case RereadError(r) => Move(s, r, Returned(None))
  }

  // --------------------------------------------------------------------- runs

  datatype Run = Run(initial: Secret, actions: seq<Action>, states: seq<State>)

  ghost predicate IsRun(run: Run) {
    && |run.states| == |run.actions| + 1
    && run.states[0] == State([run.initial], map[])
    && forall k :: 0 <= k < |run.actions| ==> StepAt(run, k)
  }

  ghost predicate StepAt(run: Run, k: nat)
    requires k < |run.actions| && |run.states| == |run.actions| + 1
  {
    Enabled(run.states[k], run.actions[k]) && run.states[k + 1] == Step(run.states[k], run.actions[k])
  }

  ghost predicate Succeeded(s: State, r: nat, password: string) {
    PcOf(s, r) == Returned(Some(password))
  }

  /** The Secret is written at most once, and every replica that returned a password returned that one. */
  ghost predicate Inv(s: State) {
    && s.history != []
    && (forall i :: 0 <= i < |s.history| ==> s.history[i] == Absent || s.history[i] == Current(s))
    && (forall r, p :: Succeeded(s, r, p) ==> p != "" && Current(s) == Present(p))
  }

  lemma StepKeepsInv(s: State, a: Action)
    requires Inv(s) && Enabled(s, a)
    ensures Inv(Step(s, a))
    ensures Current(s).Present? ==> Current(Step(s, a)) == Current(s)
  {
    var s' := Step(s, a);
    forall r, p | Succeeded(s', r, p) ensures p != "" && Current(s') == Present(p) {
      if r != a.replica { assert Succeeded(s, r, p); }
    }
  }

  lemma {:induction false} RunInv(run: Run, k: nat)
    requires IsRun(run) && k <= |run.actions|
    ensures Inv(run.states[k])
  {
    if k > 0 {
      RunInv(run, k - 1);
      assert StepAt(run, k - 1);
      StepKeepsInv(run.states[k - 1], run.actions[k - 1]);
    }
  }

  /** Once the Secret exists, no step of any replica changes it. */
  lemma {:induction false} NeverOverwritten(run: Run, i: nat, k: nat)
    requires IsRun(run) && i <= k <= |run.actions|
    requires run.states[i].history != [] && Current(run.states[i]).Present?
    ensures run.states[k].history != [] && Current(run.states[k]) == Current(run.states[i])
  {
    if i < k {
      NeverOverwritten(run, i, k - 1);
      RunInv(run, k - 1);
      assert StepAt(run, k - 1);
      StepKeepsInv(run.states[k - 1], run.actions[k - 1]);
    }
  }

  /** All replicas that return successfully, at any points of a run, return the
      same password, and it is the one in the Secret from then on. */
  lemma Agreement(run: Run, i: nat, j: nat, r: nat, q: nat, p: string, o: string)
    requires IsRun(run) && i <= j <= |run.actions|
    requires Succeeded(run.states[i], r, p) && Succeeded(run.states[j], q, o)
    ensures p == o
    ensures forall k :: i <= k <= |run.actions| ==> run.states[k].history != [] && Current(run.states[k]) == Present(p)
  {
    RunInv(run, i);
    RunInv(run, j);
    forall k | i <= k <= |run.actions|
      ensures run.states[k].history != [] && Current(run.states[k]) == Present(p)
    {
      NeverOverwritten(run, i, k);
    }
  }

  /** A Secret that exists without a password is never repaired: no replica ever
      succeeds, although the code path that finds it empty announces a new password. */
  lemma EmptySecretBlocksEveryone(run: Run, k: nat, r: nat, p: string)
    requires IsRun(run) && k <= |run.actions| && run.initial == Present("")
    ensures !Succeeded(run.states[k], r, p)
  {
    RunInv(run, k);
    NeverOverwritten(run, 0, k);
  }

  /** From any other Secret, a replica can succeed; with nothing stored it succeeds with its own password. */
  lemma OtherwiseOneCanSucceed(initial: Secret, generated: string)
    requires initial != Present("") && generated != ""
    ensures exists run :: IsRun(run) && run.initial == initial && run.actions != []
              && Succeeded(run.states[|run.actions|], 0, if initial == Absent then generated else initial.password)
  {
    var s0 := State([initial], map[]);
    var s1 := Step(s0, Read(0, 0));
    if initial == Absent {
      var run := Run(initial, [Read(0, 0), Create(0, generated)], [s0, s1, Step(s1, Create(0, generated))]);
      assert StepAt(run, 0) && StepAt(run, 1);
      assert IsRun(run) && Succeeded(run.states[|run.actions|], 0, generated);
    } else {
      var run := Run(initial, [Read(0, 0)], [s0, s1]);
      assert StepAt(run, 0);
      assert IsRun(run) && Succeeded(run.states[|run.actions|], 0, initial.password);
    }
  }

  /** A replica that reads a stored password, first or after its create met a conflict, returns it. */
  lemma ReadPasswordIsReturned(run: Run, k: nat, p: string)
    requires IsRun(run) && k < |run.actions| && p != ""
    requires run.actions[k].Read? || run.actions[k].Reread?
    requires StepAt(run, k) && run.states[k].history[run.actions[k].version] == Present(p)
    ensures Succeeded(run.states[k + 1], run.actions[k].replica, p)
  {}

  /** A replica whose create meets a conflict re-reads, and succeeds as soon as the re-read shows the
      Secret that caused the conflict. */
  lemma ConflictEndsInSuccess(run: Run, i: nat, k: nat)
    requires IsRun(run) && i < k < |run.actions| && run.actions[i].Create? && run.actions[k].Reread?
    requires run.actions[k].replica == run.actions[i].replica
    requires run.states[i].history != [] && Current(run.states[i]).Present? && Current(run.states[i]).password != ""
    requires StepAt(run, k) && run.actions[k].version == |run.states[k].history| - 1
    ensures PcOf(run.states[i + 1], run.actions[i].replica) == Conflicted
    ensures Succeeded(run.states[k + 1], run.actions[i].replica, Current(run.states[i]).password)
  {
    assert StepAt(run, i);
    NeverOverwritten(run, i, k);
  }

  /** Every error ends the replica's attempt without a password, and a read or create error does nothing else. */
  lemma ErrorsReturnNothing(run: Run, k: nat)
    requires IsRun(run) && k < |run.actions|
    requires run.actions[k].ReadError? || run.actions[k].CreateError? || run.actions[k].RereadError?
    requires run.states[k].history != []
    ensures PcOf(run.states[k + 1], run.actions[k].replica) == Returned(None)
    ensures !run.actions[k].CreateError? ==> run.states[k + 1].history == run.states[k].history
    ensures run.actions[k].CreateError? ==>
              run.states[k + 1].history ==
              if run.actions[k].applied && Current(run.states[k]) == Absent
              then run.states[k].history + [Present(run.actions[k].generated)] else run.states[k].history
  {
    assert StepAt(run, k);
  }
}
