/** Certificate rotation together with the start-up of operator replicas.

    Every replica, leader or not, ensures the certificates when it starts and
    injects the bundle it got, attempt by attempt, while the leader rotates.  A
    replica that gives up ends.  The last bundle is safe while all webhooks carry
    it or somebody still has it to inject. */
module CertReplicas {
  import opened Basics
  import opened CertRotation

  /** `fetched` holds the bundle that each starting replica is about to inject. */
  datatype State = State(now: Moment, fetched: map<nat, Bundle>)

  datatype Event =
    | Rotation(event: CertRotation.Event)
    | StartEnsure(replica: nat, renewed: Option<nat>)
    | StartAttempt(replica: nat, answers: Answers)
    | StartExit(replica: nat)

  predicate Enabled(s: State, e: Event) {
    match e
    case Rotation(r) => r.LeaderTick? ==> Renews(r.tick)
    case StartEnsure(r, _) => r !in s.fetched
    case StartAttempt(r, _) => r in s.fetched
    case StartExit(r) => r in s.fetched
  }

  ghost function Attempted(s: State, r: nat, answers: Answers): Outcome
    requires r in s.fetched
  {
    Injected(s.now.validating, s.now.mutating, s.fetched[r], answers, 0)
  }

  /** One step: the certificate manager hands out the bundle issued last, or issues a new one
      first; a successful attempt ends the start-up injection, a failed one may be repeated. */
  ghost function Step(s: State, e: Event): State
    requires Enabled(s, e)
  {
    match e
    case Rotation(r) => s.(now := After(s.now, r))
    case StartEnsure(r, renewed) =>
      var issued := if renewed.Some? then renewed else s.now.issued;
      State(s.now.(issued := issued), s.fetched[r := issued])
    case StartAttempt(r, answers) =>
      var o := Attempted(s, r, answers);
      State(s.now.(validating := o.validating, mutating := o.mutating), if o.ok then s.fetched - {r} else s.fetched)
    case StartExit(r) => s.(fetched := s.fetched - {r})
  }

  // ---------------------------------------------------------------- the condition

  /** A starting replica other than `but` has the last bundle. */
  ghost predicate StarterHolds(s: State, but: Option<nat>) {
    exists r :: r in s.fetched && Some(r) != but && s.fetched[r] == s.now.issued
  }

  ghost predicate LeaderHolds(s: State) { s.now.pending == s.now.issued }

  /** All webhooks carry the last bundle, or the leader or a starting replica still has it to inject. */
  ghost predicate Safe(s: State) {
    s.now.issued.Some? && (CarriedAt(s.now) || LeaderHolds(s) || StarterHolds(s, None))
  }

  ghost predicate Writes(s: Moment, o: Outcome) {
    o.validating != s.validating || o.mutating != s.mutating
  }

  /** The event loses the last bundle: the only holder goes away before all webhooks have it, or an
      older bundle is written over it while nobody holds it. */
  ghost predicate Harmful(s: State, e: Event)
    requires Enabled(s, e)
  {
    match e
    case Rotation(LeaderChange) => LeaderHolds(s) && !CarriedAt(s.now) && !StarterHolds(s, None)
    case Rotation(LeaderTick(tick)) =>
      && !Issues(tick) && s.now.pending.Some? && !LeaderHolds(s) && !StarterHolds(s, None)
      && Writes(s.now, Retried(s.now.validating, s.now.mutating, s.now.pending, tick.retry, 0))
    case StartEnsure(_, _) => false
    case StartAttempt(r, answers) =>
      && s.fetched[r] != s.now.issued && !LeaderHolds(s) && !StarterHolds(s, None)
      && Writes(s.now, Attempted(s, r, answers))
    case StartExit(r) =>
      && s.fetched[r] == s.now.issued && !CarriedAt(s.now) && !LeaderHolds(s) && !StarterHolds(s, Some(r))
  }

  /** The event brings a bundle that its author holds: what makes a lost bundle good again. */
  ghost predicate Renewing(e: Event) {
    e.StartEnsure? || (e.Rotation? && e.event.LeaderTick? && Issues(e.event.tick))
  }

  // ------------------------------------------------------------------- one step

  /** An older bundle leaves all webhooks with the last one exactly when it is written nowhere. */
  lemma OldBundleSpoils(v: Configs, after: Configs, old': Bundle, issued: Bundle)
    requires Spread(v, after, old') && old' != issued
    ensures AllCarry(after, issued) <==> AllCarry(v, issued) && after == v
  {
    if AllCarry(after, issued) {
      forall i | 0 <= i < |v| ensures after[i] == v[i] {
        forall j | 0 <= j < |v[i]| ensures after[i][j] == v[i][j] { assert after[i][j] == issued; }
      }
    }
  }

  lemma TickExactly(s: State, tick: Tick)
    requires s.now.issued.Some? && Renews(tick)
    ensures var e := Rotation(LeaderTick(tick));
            Safe(Step(s, e)) <==> if Safe(s) then !Harmful(s, e) else Renewing(e)
  {
    var t := AfterTick(s.now, tick);
    if Issues(tick) {
      TickIsSound(s.now, tick);
    } else if s.now.pending.Some? {
      var o := Retried(s.now.validating, s.now.mutating, s.now.pending, tick.retry, 0);
      RetriedSpreads(s.now.validating, s.now.mutating, s.now.pending, tick.retry, 0);
      SameStarters(s, State(t, s.fetched));
      if !LeaderHolds(s) {
        OldBundleSpoils(s.now.validating, o.validating, s.now.pending, s.now.issued);
        OldBundleSpoils(s.now.mutating, o.mutating, s.now.pending, s.now.issued);
      }
    }
  }

  lemma SameStarters(s: State, t: State)
    requires s.fetched == t.fetched && s.now.issued == t.now.issued
    ensures StarterHolds(s, None) == StarterHolds(t, None)
  {}

  lemma EnsureExactly(s: State, r: nat, renewed: Option<nat>)
    requires s.now.issued.Some? && r !in s.fetched
    ensures Safe(Step(s, StartEnsure(r, renewed)))
  {
    var t := Step(s, StartEnsure(r, renewed));
    assert t.fetched[r] == t.now.issued;
  }

  /** What a starting replica gets: the bundle issued last, which is the new one when it renews. */
  lemma StarterGets(s: State, r: nat, b: nat)
    requires r !in s.fetched
    ensures var t := Step(s, StartEnsure(r, None)); t.fetched == s.fetched[r := s.now.issued] && t.now == s.now
    ensures var t := Step(s, StartEnsure(r, Some(b)));
            t.fetched == s.fetched[r := Some(b)] && t.now == s.now.(issued := Some(b))
  {}

  lemma AttemptExactly(s: State, r: nat, answers: Answers)
    requires s.now.issued.Some? && r in s.fetched
    ensures var e := StartAttempt(r, answers);
            Safe(Step(s, e)) <==> if Safe(s) then !Harmful(s, e) else Renewing(e)
  {
    var o, t := Attempted(s, r, answers), Step(s, StartAttempt(r, answers));
    InjectedSpreads(s.now.validating, s.now.mutating, s.fetched[r], answers, 0);
    if s.fetched[r] == s.now.issued {
      assert StarterHolds(s, None);
      if !o.ok { assert t.fetched[r] == t.now.issued; }
    } else {
      OldBundleSpoils(s.now.validating, o.validating, s.fetched[r], s.now.issued);
      OldBundleSpoils(s.now.mutating, o.mutating, s.fetched[r], s.now.issued);
      OtherStarters(s, t, r);
    }
  }

  lemma OtherStarters(s: State, t: State, r: nat)
    requires r in s.fetched && s.fetched[r] != s.now.issued && t.now.issued == s.now.issued
    requires t.fetched == s.fetched || t.fetched == s.fetched - {r}
    ensures StarterHolds(t, None) == StarterHolds(s, None)
  {
    if x :| x in s.fetched && s.fetched[x] == s.now.issued { assert x in t.fetched && t.fetched[x] == t.now.issued; }
  }

  lemma ExitExactly(s: State, r: nat)
    requires s.now.issued.Some? && r in s.fetched
    ensures Safe(Step(s, StartExit(r))) <==> if Safe(s) then !Harmful(s, StartExit(r)) else Renewing(StartExit(r))
  {
    var t := Step(s, StartExit(r));
    if x :| x in s.fetched && Some(x) != Some(r) && s.fetched[x] == s.now.issued {
      assert x in t.fetched && t.fetched[x] == t.now.issued;
    }
  }

  /** From a safe moment a step leads to a safe one exactly when it is not harmful, and from an
      unsafe one exactly when it renews. */
  lemma StepExactly(s: State, e: Event)
    requires s.now.issued.Some? && Enabled(s, e)
    ensures Step(s, e).now.issued.Some?
    ensures Safe(Step(s, e)) <==> if Safe(s) then !Harmful(s, e) else Renewing(e)
  {
    match e
    case Rotation(r) =>
      if r.LeaderTick? { TickExactly(s, r.tick); } else { SameStarters(s, Step(s, e)); }
    case StartEnsure(r, renewed) => EnsureExactly(s, r, renewed);
    case StartAttempt(r, answers) => AttemptExactly(s, r, answers);
    case StartExit(r) => ExitExactly(s, r);
  }

  // ----------------------------------------------------------------------- runs

  ghost predicate StepAt(events: seq<Event>, states: seq<State>, k: nat)
    requires k < |events| && |states| == |events| + 1
  {
    Enabled(states[k], events[k]) && states[k + 1] == Step(states[k], events[k])
  }

  ghost predicate IsRun(events: seq<Event>, states: seq<State>) {
    && |states| == |events| + 1 && states[0].now.issued.Some?
    && forall k :: 0 <= k < |events| ==> StepAt(events, states, k)
  }

  /** The last bundle is lost at moment `k`: a harmful event took it from a safe moment, and no event since
      has brought a bundle that somebody holds. */
  ghost predicate Lost(events: seq<Event>, states: seq<State>, k: nat)
    requires IsRun(events, states) && k <= |events|
  {
    if k == 0 then !Safe(states[0])
    else
      assert StepAt(events, states, k - 1);
      if Lost(events, states, k - 1) then !Renewing(events[k - 1]) else Harmful(states[k - 1], events[k - 1])
  }

  /** In every run, with any interleaving of starting replicas, ticks and changes of leader and any
      failures, the last bundle is safe at a moment if and only if it is not lost there. */
  lemma {:induction false} SafeExactly(events: seq<Event>, states: seq<State>, k: nat)
    requires IsRun(events, states) && k <= |events|
    ensures states[k].now.issued.Some? && (Safe(states[k]) <==> !Lost(events, states, k))
  {
    if k > 0 {
      SafeExactly(events, states, k - 1);
      assert StepAt(events, states, k - 1);
      StepExactly(states[k - 1], events[k - 1]);
    }
  }

  /** The race: a replica takes the last bundle when it starts, the leader issues and injects another one,
      and then the replica writes the old one over it.  Nothing is pending and nobody has the new bundle. */
  lemma SlowStartLoses(s: State, r: nat, tick: Tick, answers: Answers)
    requires s.now.issued.Some? && s.now.pending == None && s.fetched == map[] && CarriedAt(s.now) && HasEntry(s.now)
    requires Issues(tick) && tick.ensured.bundle.Some? && tick.ensured.bundle != s.now.issued && Reachable(tick.inject)
    requires forall n: nat :: answers.validating(0, n).Done? && answers.mutating(0, n).Done?
    ensures Safe(s)
    ensures var a := Step(s, StartEnsure(r, None));
            var b := Step(a, Rotation(LeaderTick(tick)));
            var c := Step(b, StartAttempt(r, answers));
            Safe(b) && CarriedAt(b.now) && Harmful(b, StartAttempt(r, answers)) && !Safe(c)
            && AllCarry(c.now.validating, s.now.issued) && AllCarry(c.now.mutating, s.now.issued)
  {
    var a := Step(s, StartEnsure(r, None));
    var b := Step(a, Rotation(LeaderTick(tick)));
    Renewed(s.now, tick);
    InjectedSpreads(b.now.validating, b.now.mutating, s.now.issued, answers, 0);
    OneBundleOnly(b.now, s.now.issued);
    var c := Step(b, StartAttempt(r, answers));
    OneBundleOnly(c.now.(issued := s.now.issued), b.now.issued);
    AttemptExactly(b, r, answers);
  }

  lemma Renewed(s: Moment, tick: Tick)
    requires s.pending == None && HasEntry(s) && Issues(tick) && Reachable(tick.inject)
    ensures var t := AfterTick(s, tick);
            t.issued == tick.ensured.bundle && t.pending == None && CarriedAt(t) && HasEntry(t)
  {
    var clean :| 0 <= clean <= 5 && Clean(tick.inject, clean);
    RetriedSucceeds(s.validating, s.mutating, tick.ensured.bundle, tick.inject, 0, clean);
    RetriedSpreads(s.validating, s.mutating, tick.ensured.bundle, tick.inject, 0);
    var t := AfterTick(s, tick);
    EntriesStay(s, t, tick.ensured.bundle);
  }

  lemma EntriesStay(s: Moment, t: Moment, b: Bundle)
    requires HasEntry(s) && Spread(s.validating, t.validating, b) && Spread(s.mutating, t.mutating, b)
    ensures HasEntry(t)
  {
    if i :| 0 <= i < |s.validating| && s.validating[i] != [] {
      assert |t.validating[i]| == |s.validating[i]|;
    } else {
      var i :| 0 <= i < |s.mutating| && s.mutating[i] != [];
      assert |t.mutating[i]| == |s.mutating[i]|;
    }
  }
}
