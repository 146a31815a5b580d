/** Lazy discovery of the OIDC provider, shared by the startup initializer and
    by every Bearer request.

    Callers interleave freely.  A step of a caller is either a critical section
    under the provider mutex, an operation of the singleflight group (which
    joins a caller to the flight under way, and delivers the result of a flight
    to all of its callers), or the return of the discovery network call. */
module LazyOidc {
  import opened Basics

  type Caller = nat
  type Provider = nat

  datatype Outcome = Success(provider: Provider) | DiscoveryFailed | CoolingDown

  /** Where a caller stands inside getProvider. */
  datatype Pc =
    | Outside
    | Checked
    | Leading
    | Discovering
    | Discovered(found: Provider)
    | Finishing(outcome: Outcome)
    | Waiting(id: nat)
    | Returned(outcome: Outcome)

  datatype Flight = Flight(id: nat, leader: Caller)

  datatype State = State(
    provider: Option<Provider>,
    lastAttempt: Option<real>,
    flight: Option<Flight>,
    nextFlight: nat,
    delivered: map<nat, Outcome>,
    pcs: map<Caller, Pc>)

  datatype Action =
    | Check(caller: Caller, now: real, ignoreCooldown: bool)  // first critical section of getProvider
    | Enter(caller: Caller, now: real)                        // start or join a flight
    | Recheck(caller: Caller, now: real)                      // first critical section of discoverProvider
    | NetFail(caller: Caller, now: real)                      // the network call fails or times out
    | NetOk(caller: Caller, now: real, found: Provider)       // the network call succeeds
    | Publish(caller: Caller, now: real)                      // second critical section of discoverProvider
    | Deliver(caller: Caller, now: real)                      // the leader's function has returned
    | Collect(caller: Caller, now: real)                      // a waiter picks up the result

  const INITIAL := State(None, None, None, 0, map[], map[])

  function PcOf(s: State, c: Caller): Pc {
    if c in s.pcs then s.pcs[c] else Outside
  }

  predicate Enabled(s: State, a: Action) {
    var pc := PcOf(s, a.caller);
    match a
    case Check(_, _, _) => pc.Outside? || pc.Returned?
    case Enter(_, _) => pc.Checked?
    case Recheck(_, _) => pc.Leading?
    case NetFail(_, _) => pc.Discovering?
    case NetOk(_, _, _) => pc.Discovering?
    case Publish(_, _) => pc.Discovered?
    case Deliver(_, _) => pc.Finishing? && s.flight.Some?
    case Collect(_, _) => pc.Waiting? && pc.id in s.delivered
  }

  predicate InCooldown(s: State, cooldown: real, now: real) {
    s.lastAttempt.Some? && now - s.lastAttempt.value < cooldown
  }

  function Move(s: State, c: Caller, pc: Pc): State {
    s.(pcs := s.pcs[c := pc])
  }

  function Step(s: State, cooldown: real, a: Action): State
    requires Enabled(s, a)
  {
    var c := a.caller;
    match a
    case Check(_, now, ignoreCooldown) =>
      if s.provider.Some? then Move(s, c, Returned(Success(s.provider.value)))
      else if !ignoreCooldown && InCooldown(s, cooldown, now) then Move(s, c, Returned(CoolingDown))
      else Move(s, c, Checked)
    case Enter(_, _) =>
      if s.flight.Some? then Move(s, c, Waiting(s.flight.value.id))
      else Move(s.(flight := Some(Flight(s.nextFlight, c)), nextFlight := s.nextFlight + 1), c, Leading)
    case Recheck(_, now) =>
      if s.provider.Some? then Move(s, c, Finishing(Success(s.provider.value)))
      else Move(s.(lastAttempt := Some(now)), c, Discovering)
    case NetFail(_, _) => Move(s, c, Finishing(DiscoveryFailed))
    case NetOk(_, _, p) => Move(s, c, Discovered(p))
    case Publish(_, _) =>
      var p := PcOf(s, c).found;
      Move(s.(provider := Some(p)), c, Finishing(Success(p)))
    case Deliver(_, _) =>
      var r := PcOf(s, c).outcome;
      Move(s.(delivered := s.delivered[s.flight.value.id := r], flight := None), c, Returned(r))
    case Collect(_, _) => Move(s, c, Returned(s.delivered[PcOf(s, c).id]))
  }

  // --------------------------------------------------------------------- runs

  /** A run: `states[k]` is the state before `actions[k]`. */
  datatype Run = Run(cooldown: real, actions: seq<Action>, states: seq<State>)

  /** Every action is enabled when it happens, and the clock never runs backwards. */
  ghost predicate IsRun(run: Run) {
    && |run.states| == |run.actions| + 1
    && run.states[0] == INITIAL
    && (forall k :: 0 <= k < |run.actions| ==> StepAt(run, k))
    && (forall i, j :: 0 <= i < j < |run.actions| ==> run.actions[i].now <= run.actions[j].now)
  }

  ghost predicate StepAt(run: Run, k: nat)
    requires k < |run.actions| && |run.states| == |run.actions| + 1
  {
    && Enabled(run.states[k], run.actions[k])
    && run.states[k + 1] == Step(run.states[k], run.cooldown, run.actions[k])
  }

  // ---------------------------------------------------------------- invariant

  predicate InFlight(pc: Pc) {
    pc.Leading? || pc.Discovering? || pc.Discovered? || pc.Finishing?
  }

  ghost predicate OutcomeAgrees(s: State, r: Outcome) {
    r.Success? ==> s.provider == Some(r.provider)
  }

  ghost predicate CallerOk(s: State, c: Caller) {
    var pc := PcOf(s, c);
    && (InFlight(pc) <==> s.flight.Some? && s.flight.value.leader == c)
    && (pc.Discovering? || pc.Discovered? ==> s.provider.None?)
    && (pc.Finishing? || pc.Returned? ==> OutcomeAgrees(s, pc.outcome))
    && (pc.Waiting? ==> pc.id in s.delivered || (s.flight.Some? && s.flight.value.id == pc.id))
  }

  ghost predicate Inv(s: State) {
    && (forall c :: CallerOk(s, c))
    && (forall f :: f in s.delivered ==> f < s.nextFlight && OutcomeAgrees(s, s.delivered[f]))
    && (s.flight.Some? ==> s.flight.value.id < s.nextFlight && s.flight.value.id !in s.delivered)
  }

  lemma StepKeepsInv(s: State, cooldown: real, a: Action)
    requires Inv(s) && Enabled(s, a)
    ensures Inv(Step(s, cooldown, a))
    ensures s.provider.Some? ==> Step(s, cooldown, a).provider == s.provider
  {
    var s' := Step(s, cooldown, a);
    assert CallerOk(s, a.caller);
    forall c ensures CallerOk(s', c) {
      assert CallerOk(s, c);
    }
  }

  lemma {:induction false} RunInv(run: Run, k: nat)
    requires IsRun(run) && k <= |run.actions|
    ensures Inv(run.states[k])
  {
    if k > 0 {
      RunInv(run, k - 1);
      assert StepAt(run, k - 1);
      StepKeepsInv(run.states[k - 1], run.cooldown, run.actions[k - 1]);
    }
  }

  // ------------------------------------------------------------ what is promised

  /** At most one caller is ever inside a discovery, and none once the provider is published. */
  lemma AtMostOneDiscovery(run: Run, k: nat, c: Caller, d: Caller)
    requires IsRun(run) && k <= |run.actions|
    ensures var s := run.states[k];
            PcOf(s, c).Discovering? && PcOf(s, d).Discovering? ==> c == d && s.provider.None?
  {
    RunInv(run, k);
    var s := run.states[k];
    assert CallerOk(s, c) && CallerOk(s, d);
  }

  /** Once published, the provider never changes. */
  lemma {:induction false} ProviderNeverChanges(run: Run, i: nat, k: nat)
    requires IsRun(run) && i <= k <= |run.actions|
    requires run.states[i].provider.Some?
    ensures run.states[k].provider == run.states[i].provider
  {
    if i < k {
      ProviderNeverChanges(run, i, k - 1);
      RunInv(run, k - 1);
      assert StepAt(run, k - 1);
      StepKeepsInv(run.states[k - 1], run.cooldown, run.actions[k - 1]);
    }
  }

  /** The provider is published at most once in a run, and no discovery starts afterwards. */
  lemma PublishedOnce(run: Run, i: nat, j: nat)
    requires IsRun(run) && i < j < |run.actions| && run.actions[i].Publish?
    ensures !run.actions[j].Publish?
    ensures !PcOf(run.states[j + 1], run.actions[j].caller).Discovering?
  {
    assert StepAt(run, i) && StepAt(run, j);
    ProviderNeverChanges(run, i + 1, j);
    RunInv(run, j);
    assert CallerOk(run.states[j], run.actions[j].caller);
  }

  /** Any two callers that succeed, at any two points of a run, got the same
      provider, and it is the published one. */
  lemma SuccessesAgree(run: Run, i: nat, j: nat, c: Caller, d: Caller)
    requires IsRun(run) && i <= j <= |run.actions|
    ensures var r, q := PcOf(run.states[i], c), PcOf(run.states[j], d);
            r.Returned? && r.outcome.Success? && q.Returned? && q.outcome.Success? ==>
              r.outcome == q.outcome && run.states[|run.actions|].provider == Some(r.outcome.provider)
  {
    RunInv(run, i);
    RunInv(run, j);
    var s, t := run.states[i], run.states[j];
    assert CallerOk(s, c) && CallerOk(t, d);
    if s.provider.Some? {
      ProviderNeverChanges(run, i, j);
      ProviderNeverChanges(run, i, |run.actions|);
    }
  }

  lemma {:induction false} DeliveredForGood(run: Run, i: nat, k: nat, f: nat)
    requires IsRun(run) && i <= k <= |run.actions|
    requires f in run.states[i].delivered
    ensures f in run.states[k].delivered
    ensures run.states[k].delivered[f] == run.states[i].delivered[f]
  {
    if i < k {
      DeliveredForGood(run, i, k - 1, f);
      RunInv(run, k - 1);
      assert StepAt(run, k - 1);
    }
  }

  /** Every caller that joined a flight returns exactly what the leader of that flight returned. */
  lemma JoinersShareTheOutcome(run: Run, i: nat, j: nat)
    requires IsRun(run) && i < j < |run.actions|
    requires run.actions[i].Deliver? && run.actions[j].Collect?
    requires run.states[i].flight.Some?
    requires PcOf(run.states[j], run.actions[j].caller) == Waiting(run.states[i].flight.value.id)
    ensures PcOf(run.states[j + 1], run.actions[j].caller) == PcOf(run.states[i + 1], run.actions[i].caller)
  {
    assert StepAt(run, i) && StepAt(run, j);
    DeliveredForGood(run, i + 1, j, run.states[i].flight.value.id);
  }

  // -------------------------------------------------------------- what callers get

  /** A provider that was found is published and returned: until its finder makes another check, it is on
      the way to the mutex, or published and on the way to the caller. */
  lemma {:induction false} FoundIsNotLost(run: Run, i: nat, k: nat)
    requires IsRun(run) && i < k <= |run.actions| && run.actions[i].NetOk?
    requires forall m :: i < m < k ==> !(run.actions[m].Check? && run.actions[m].caller == run.actions[i].caller)
    ensures var pc, found := PcOf(run.states[k], run.actions[i].caller), run.actions[i].found;
            || pc == Discovered(found)
            || (run.states[k].provider == Some(found)
                && (pc == Finishing(Success(found)) || pc == Returned(Success(found))))
  {
    assert StepAt(run, k - 1);
    if i < k - 1 {
      FoundIsNotLost(run, i, k - 1);
      RunInv(run, k - 1);
      StepKeepsInv(run.states[k - 1], run.cooldown, run.actions[k - 1]);
    }
  }

  /** What a leader has in hand when its function returns is what it returns itself. */
  lemma {:induction false} OutcomeIsKept(run: Run, i: nat, k: nat, c: Caller)
    requires IsRun(run) && i <= k <= |run.actions| && PcOf(run.states[i], c).Finishing?
    requires forall m :: i <= m < k ==> !(run.actions[m].Check? && run.actions[m].caller == c)
    ensures var r := PcOf(run.states[i], c).outcome;
            PcOf(run.states[k], c) == Finishing(r) || PcOf(run.states[k], c) == Returned(r)
  {
    if i < k {
      OutcomeIsKept(run, i, k - 1, c);
      assert StepAt(run, k - 1);
    }
  }

  /** A failed discovery is reported as one to its leader. */
  lemma {:induction false} FailureIsReported(run: Run, i: nat, k: nat)
    requires IsRun(run) && i < k <= |run.actions| && run.actions[i].NetFail?
    requires forall m :: i < m < k ==> !(run.actions[m].Check? && run.actions[m].caller == run.actions[i].caller)
    ensures var pc := PcOf(run.states[k], run.actions[i].caller);
            pc == Finishing(DiscoveryFailed) || pc == Returned(DiscoveryFailed)
  {
    assert StepAt(run, k - 1);
    if i < k - 1 { FailureIsReported(run, i, k - 1); }
  }

  /** Once the provider is published, every caller gets it at its check. */
  lemma PublishedIsReturned(run: Run, i: nat, k: nat)
    requires IsRun(run) && i < k < |run.actions| && run.actions[i].Publish? && run.actions[k].Check?
    ensures PcOf(run.states[i], run.actions[i].caller).Discovered?
    ensures PcOf(run.states[k + 1], run.actions[k].caller) ==
            Returned(Success(PcOf(run.states[i], run.actions[i].caller).found))
  {
    assert StepAt(run, i) && StepAt(run, k);
    ProviderNeverChanges(run, i + 1, k);
  }

  /** The leader that publishes, and a leader that finds a provider published before it asks, succeed with it. */
  lemma LeadersSucceed(run: Run, k: nat)
    requires IsRun(run) && k < |run.actions|
    requires run.actions[k].Publish? || (run.actions[k].Recheck? && run.states[k].provider.Some?)
    ensures run.states[k + 1].provider.Some?
    ensures PcOf(run.states[k + 1], run.actions[k].caller) == Finishing(Success(run.states[k + 1].provider.value))
  {
    assert StepAt(run, k);
  }

  /** A check without a provider lets the startup initializer through, and a lazy caller exactly when
      no attempt was started within the cooldown before it. */
  lemma CheckExactly(run: Run, k: nat)
    requires IsRun(run) && k < |run.actions| && run.actions[k].Check? && run.states[k].provider.None?
    ensures var pc := PcOf(run.states[k + 1], run.actions[k].caller);
            var recent := exists i :: 0 <= i < k && StartsDiscovery(run, i)
                            && run.actions[k].now - run.actions[i].now < run.cooldown;
            pc == if !run.actions[k].ignoreCooldown && recent then Returned(CoolingDown) else Checked
  {
    assert StepAt(run, k);
    var i := LastAttempt(run, k);
    if j :| 0 <= j < k && StartsDiscovery(run, j) && run.actions[k].now - run.actions[j].now < run.cooldown {
      LastAttemptIsLater(run, j, k);
    }
  }

  /** The recorded attempt is the last discovery that was started, if any was. */
  lemma {:induction false} LastAttempt(run: Run, k: nat) returns (i: nat)
    requires IsRun(run) && k <= |run.actions|
    ensures run.states[k].lastAttempt.Some? ==>
              i < k && StartsDiscovery(run, i) && run.states[k].lastAttempt == Some(run.actions[i].now)
  {
    i := 0;
    if k > 0 {
      assert StepAt(run, k - 1);
      i := LastAttempt(run, k - 1);
      if StartsDiscovery(run, k - 1) { i := k - 1; }
    }
  }

  // ------------------------------------------------------------------- cooldown

  predicate StartsDiscovery(run: Run, i: nat)
    requires i < |run.actions| && |run.states| == |run.actions| + 1
  {
    run.actions[i].Recheck? && PcOf(run.states[i + 1], run.actions[i].caller).Discovering?
  }

  lemma {:induction false} LastAttemptIsLater(run: Run, i: nat, k: nat)
    requires IsRun(run) && i < k <= |run.actions| && StartsDiscovery(run, i)
    ensures run.states[k].lastAttempt.Some?
    ensures run.actions[i].now <= run.states[k].lastAttempt.value
  {
    assert StepAt(run, k - 1);
    if i < k - 1 { LastAttemptIsLater(run, i, k - 1); }
  }

  /** A lazy caller whose check falls within the cooldown of any discovery
      started earlier in the run neither starts nor joins one: it returns at once. */
  lemma CooldownTurnsLazyCallersAway(run: Run, i: nat, k: nat)
    requires IsRun(run) && i < k < |run.actions| && StartsDiscovery(run, i)
    requires run.actions[k].Check? && !run.actions[k].ignoreCooldown
    requires run.actions[k].now - run.actions[i].now < run.cooldown
    ensures PcOf(run.states[k + 1], run.actions[k].caller).Returned?
    ensures run.states[k + 1].flight == run.states[k].flight
  {
    assert StepAt(run, k);
    LastAttemptIsLater(run, i, k);
  }

  /** Action `k` is the last check of caller `c` before action `j`. */
  ghost predicate LastCheck(run: Run, k: nat, j: nat, c: Caller) {
    && k < j <= |run.actions|
    && run.actions[k].Check? && run.actions[k].caller == c
    && forall m :: k < m < j ==> !(run.actions[m].Check? && run.actions[m].caller == c)
  }

  /** A caller inside getProvider, or back from it, has made a check. */
  lemma {:induction false} EveryCallerChecked(run: Run, j: nat, c: Caller) returns (k: nat)
    requires IsRun(run) && j <= |run.actions| && !PcOf(run.states[j], c).Outside?
    ensures LastCheck(run, k, j, c)
  {
    assert StepAt(run, j - 1);
    if run.actions[j - 1].Check? && run.actions[j - 1].caller == c {
      k := j - 1;
    } else {
      k := EveryCallerChecked(run, j - 1, c);
    }
  }

  lemma {:induction false} ReturnedStays(run: Run, k: nat, j: nat, c: Caller)
    requires IsRun(run) && LastCheck(run, k, j, c) && PcOf(run.states[k + 1], c).Returned?
    ensures PcOf(run.states[j], c).Returned?
  {
    if k + 1 < j {
      ReturnedStays(run, k, j - 1, c);
      assert StepAt(run, j - 1);
    }
  }

  /** Attempts `i` and `j` of a run, the later of which was led by a caller whose last
      check is action `k`: `early` says that it came before attempt `i`, and `startup` that it
      was the startup initializer's, which ignores the cooldown. */
  ghost predicate TwoAttempts(run: Run, i: nat, j: nat, k: nat, early: bool, startup: bool) {
    && IsRun(run) && i < j < |run.actions| && StartsDiscovery(run, i) && StartsDiscovery(run, j)
    && LastCheck(run, k, j, run.actions[j].caller)
    && early == (k < i) && startup == run.actions[k].ignoreCooldown
  }

  ghost predicate Spaced(run: Run, i: nat, j: nat)
    requires i < |run.actions| && j < |run.actions|
  {
    run.actions[j].now - run.actions[i].now >= run.cooldown
  }

  /** Two attempts are at least a cooldown apart when the leader of the later one was a lazy
      caller that made its check after the earlier one had started. */
  lemma LazyAttemptsAreSpaced(run: Run, i: nat, j: nat, k: nat)
    requires TwoAttempts(run, i, j, k, false, false)
    ensures Spaced(run, i, j)
  {
    assert StepAt(run, i) && StepAt(run, j);
    var c := run.actions[j].caller;
    assert k != i;
    if run.actions[k].now - run.actions[i].now < run.cooldown {
      CooldownTurnsLazyCallersAway(run, i, k);
      ReturnedStays(run, k, j, c);
    }
  }

  function Extended(run: Run, a: Action): Run
    requires |run.states| == |run.actions| + 1 && Enabled(run.states[|run.actions|], a)
  {
    run.(actions := run.actions + [a],
         states := run.states + [Step(run.states[|run.actions|], run.cooldown, a)])
  }

  lemma ExtendedIsRun(run: Run, a: Action)
    requires IsRun(run) && Enabled(run.states[|run.actions|], a)
    requires run.actions != [] ==> run.actions[|run.actions| - 1].now <= a.now
    ensures IsRun(Extended(run, a))
    ensures Extended(run, a).states[|run.actions| + 1] == Step(run.states[|run.actions|], run.cooldown, a)
  {
    var ext := Extended(run, a);
    forall k | 0 <= k < |ext.actions| ensures StepAt(ext, k) {
      if k < |run.actions| { assert StepAt(run, k); }
    }
  }

  /** Two callers pass the check together, and one of them leads a flight. */
  lemma FlightUnderWay(startup: bool) returns (run: Run)
    ensures IsRun(run) && run.cooldown == 30.0
    ensures run.actions == [Check(0, 0.0, false), Check(1, 0.0, startup), Enter(0, 0.0)]
    ensures run.states[3] == State(None, None, Some(Flight(0, 0)), 1, map[], map[0 := Leading, 1 := Checked])
  {
    run := Run(30.0, [], [INITIAL]);
    ExtendedIsRun(run, Check(0, 0.0, false));
    run := Extended(run, Check(0, 0.0, false));
    ExtendedIsRun(run, Check(1, 0.0, startup));
    run := Extended(run, Check(1, 0.0, startup));
    ExtendedIsRun(run, Enter(0, 0.0));
    run := Extended(run, Enter(0, 0.0));
  }

  /** The flight has just failed, and the other caller has not entered it. */
  lemma FailedFlight(startup: bool) returns (run: Run)
    ensures IsRun(run) && run.cooldown == 30.0 && |run.actions| == 6
    ensures StartsDiscovery(run, 3) && run.actions[3].now == 0.0 && run.actions[5].now == 1.0
    ensures run.actions[1] == Check(1, 0.0, startup) && forall m :: 2 <= m < 6 ==> run.actions[m].caller == 0
    ensures var s := run.states[6];
            s.provider.None? && s.flight.None? && PcOf(s, 1).Checked? && PcOf(s, 2).Outside?
  {
    run := FlightUnderWay(startup);
    ExtendedIsRun(run, Recheck(0, 0.0));
    run := Extended(run, Recheck(0, 0.0));
    ExtendedIsRun(run, NetFail(0, 1.0));
    run := Extended(run, NetFail(0, 1.0));
    ExtendedIsRun(run, Deliver(0, 1.0));
    run := Extended(run, Deliver(0, 1.0));
  }

  /** A caller that made its check before a failed flight starts the next one at once. */
  lemma EarlyCheckIsNotSpaced(startup: bool) returns (run: Run, i: nat, j: nat, k: nat)
    ensures TwoAttempts(run, i, j, k, true, startup) && !Spaced(run, i, j)
  {
    run := FailedFlight(startup);
    ExtendedIsRun(run, Enter(1, 1.0));
    run := Extended(run, Enter(1, 1.0));
    ExtendedIsRun(run, Recheck(1, 1.0));
    run := Extended(run, Recheck(1, 1.0));
    i, j, k := 3, 7, 1;
    assert StartsDiscovery(run, 3) && StartsDiscovery(run, 7);
  }

  /** The startup initializer starts the next one at once even when it checks after the failure. */
  lemma StartupIsNotSpaced() returns (run: Run, i: nat, j: nat, k: nat)
    ensures TwoAttempts(run, i, j, k, false, true) && !Spaced(run, i, j)
  {
    run := FailedFlight(false);
    ExtendedIsRun(run, Check(2, 1.0, true));
    run := Extended(run, Check(2, 1.0, true));
    ExtendedIsRun(run, Enter(2, 1.0));
    run := Extended(run, Enter(2, 1.0));
    ExtendedIsRun(run, Recheck(2, 1.0));
    run := Extended(run, Recheck(2, 1.0));
    i, j, k := 3, 8, 6;
    assert StartsDiscovery(run, 3) && StartsDiscovery(run, 8);
  }

  /** The cooldown spaces two attempts exactly when the later one was led by a lazy caller
      that made its check after the earlier one had started: it does so in all such runs,
      and each of the other kinds has a run in which it does not. */
  lemma SpacedExactly(early: bool, startup: bool)
    ensures (forall run, i, j, k :: TwoAttempts(run, i, j, k, early, startup) ==> Spaced(run, i, j)) <==>
            !early && !startup
  {
    if early {
      var run, i, j, k := EarlyCheckIsNotSpaced(startup);
      assert TwoAttempts(run, i, j, k, early, startup) && !Spaced(run, i, j);
    } else if startup {
      var run, i, j, k := StartupIsNotSpaced();
      assert TwoAttempts(run, i, j, k, early, startup) && !Spaced(run, i, j);
    } else {
      forall run, i, j, k | TwoAttempts(run, i, j, k, false, false) ensures Spaced(run, i, j) {
        LazyAttemptsAreSpaced(run, i, j, k);
      }
    }
  }

  /** Every later attempt falls under one of these kinds. */
  lemma EveryAttemptHasACheck(run: Run, i: nat, j: nat) returns (k: nat, startup: bool)
    requires IsRun(run) && i < j < |run.actions| && StartsDiscovery(run, i) && StartsDiscovery(run, j)
    ensures TwoAttempts(run, i, j, k, k < i, startup)
  {
    assert StepAt(run, j);
    k := EveryCallerChecked(run, j, run.actions[j].caller);
    startup := run.actions[k].ignoreCooldown;
  }
}
