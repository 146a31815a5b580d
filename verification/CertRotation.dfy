/** Rotation of the webhook certificates and re-injection of the CA bundle.

    Every API call may fail, and a failed update may or may not have reached the
    API server.  A Go nil slice is None; the loop uses nil for "nothing pending". */
module CertRotation {
  import opened Basics

  type Bundle = Option<nat>

  /** How the API server answers one call. */
  datatype Reply = Done | Refused | AppliedButFailed

  datatype CheckReply = CheckFailed | NoRotation | NeedsRotation

  datatype EnsureReply = EnsureFailed | Issued(bundle: Bundle)

  /** The bundles of the webhook entries of each configuration. */
  type Configs = seq<seq<Bundle>>

  const MAX_RETRIES := 5

  ghost predicate AllCarry(configs: Configs, b: Bundle) {
    forall i, j :: 0 <= i < |configs| && 0 <= j < |configs[i]| ==> configs[i][j] == b
  }

  /** `after` is `before` with `b` written into any of its entries. */
  ghost predicate Spread(before: Configs, after: Configs, b: Bundle) {
    && |before| == |after|
    && (forall i :: 0 <= i < |before| ==> |before[i]| == |after[i]|)
    && (forall i, j :: 0 <= i < |before| && 0 <= j < |before[i]| ==>
          after[i][j] == before[i][j] || after[i][j] == b)
  }

  lemma SpreadMore(a: Configs, b: Configs, c: Configs, bundle: Bundle)
    requires Spread(a, b, bundle) && Spread(b, c, bundle)
    ensures Spread(a, c, bundle)
  {}

  /** Either nothing is pending and every webhook entry carries the bundle issued
      last, or the pending bundle is the one issued last. */
  ghost predicate Consistent(validating: Configs, mutating: Configs, pending: Bundle, issued: Bundle) {
    if pending.None? then AllCarry(validating, issued) && AllCarry(mutating, issued) else pending == issued
  }

  /** A copy of one configuration with the bundle in every entry, as the inner loop writes it. */
  method Patched(config: seq<Bundle>, bundle: Bundle) returns (out: seq<Bundle>, patched: bool)
    ensures |out| == |config| && forall j :: 0 <= j < |out| ==> out[j] == bundle
    ensures patched <==> config != []
  {
    out, patched := config, false;
    for j := 0 to |config|
      invariant |out| == |config| && (patched <==> j > 0)
      invariant forall i :: 0 <= i < j ==> out[i] == bundle
    {
      out := out[j := bundle];
      patched := true;
    }
  }

  function Filled(config: seq<Bundle>, bundle: Bundle): seq<Bundle> {
    seq(|config|, j => bundle)
  }

  /** The list call succeeded, and so did every update before that of configuration `i`; a
      configuration without entries needs no update. */
  ghost predicate Reached(configs: Configs, replies: (nat, nat) -> Reply, attempt: nat, i: nat)
    requires i <= |configs|
  {
    replies(attempt, 0).Done? && forall k :: 0 <= k < i && configs[k] != [] ==> replies(attempt, k + 1).Done?
  }

  /** What an attempt leaves behind: a configuration has the bundle in all its entries if its
      update was tried and not refused, and is as it was otherwise. */
  ghost function Stored(configs: Configs, bundle: Bundle, replies: (nat, nat) -> Reply, attempt: nat): Configs {
    seq(|configs|, i requires 0 <= i < |configs| =>
      if Reached(configs, replies, attempt, i) && replies(attempt, i + 1) != Refused then Filled(configs[i], bundle)
      else configs[i])
  }

  lemma StoredSpreads(configs: Configs, bundle: Bundle, replies: (nat, nat) -> Reply, attempt: nat)
    ensures Spread(configs, Stored(configs, bundle, replies, attempt), bundle)
    ensures Reached(configs, replies, attempt, |configs|) ==>
              AllCarry(Stored(configs, bundle, replies, attempt), bundle)
  {
    var all := Stored(configs, bundle, replies, attempt);
    forall i | 0 <= i < |configs| ensures all[i] == configs[i] || all[i] == Filled(configs[i], bundle) {}
    if Reached(configs, replies, attempt, |configs|) {
      forall i | 0 <= i < |configs| && configs[i] != [] ensures all[i] == Filled(configs[i], bundle) {
        assert replies(attempt, i + 1).Done?;
      }
    }
  }

  /** Lists the configurations of one kind and updates them in turn, stopping at the first error. */
  method InjectInto(configs: Configs, bundle: Bundle, replies: (nat, nat) -> Reply, attempt: nat)
    returns (ok: bool, stored: Configs)
    ensures ok <==> Reached(configs, replies, attempt, |configs|)
    ensures stored == Stored(configs, bundle, replies, attempt)
    ensures Spread(configs, stored, bundle)
    ensures ok ==> AllCarry(stored, bundle)
  {
    StoredSpreads(configs, bundle, replies, attempt);
    if replies(attempt, 0) != Done {
      assert configs == Stored(configs, bundle, replies, attempt);
      return false, configs;
    }
    ok, stored := UpdateEach(configs, bundle, replies, attempt);
  }

  method UpdateEach(configs: Configs, bundle: Bundle, replies: (nat, nat) -> Reply, attempt: nat)
    returns (ok: bool, stored: Configs)
    requires replies(attempt, 0).Done?
    ensures ok <==> Reached(configs, replies, attempt, |configs|)
    ensures stored == Stored(configs, bundle, replies, attempt)
  {
    stored := configs;
    for i := 0 to |configs|
      invariant Reached(configs, replies, attempt, i) && Progress(configs, stored, bundle, i)
    {
      var out, patched := Patched(configs[i], bundle);
      NextProgress(configs, stored, bundle, i, out);
      if patched {
        ghost var before := stored;
        if replies(attempt, i + 1) != Refused { stored := stored[i := out]; }
        if replies(attempt, i + 1) != Done {
          StoppedAt(configs, bundle, replies, attempt, i, before);
          return false, stored;
        }
      }
    }
    AllStored(configs, bundle, replies, attempt, stored);
    return true, stored;
  }

  lemma NextProgress(configs: Configs, stored: Configs, bundle: Bundle, i: nat, out: seq<Bundle>)
    requires i < |configs| && Progress(configs, stored, bundle, i)
    requires |out| == |configs[i]| && forall j :: 0 <= j < |out| ==> out[j] == bundle
    ensures out == Filled(configs[i], bundle) && Progress(configs, stored[i := out], bundle, i + 1)
    ensures configs[i] == [] ==> Progress(configs, stored, bundle, i + 1)
  {
    assert out == Filled(configs[i], bundle);
    assert configs[i] == [] ==> stored[i] == out;
  }

  /** The first `i` configurations have the bundle in every entry, the others are as they were. */
  ghost predicate Progress(configs: Configs, stored: Configs, bundle: Bundle, i: nat) {
    && |stored| == |configs|
    && (forall k :: 0 <= k < i <= |configs| ==> stored[k] == Filled(configs[k], bundle))
    && (forall k :: i <= k < |configs| ==> stored[k] == configs[k])
  }

  lemma StoppedAt(configs: Configs, bundle: Bundle, replies: (nat, nat) -> Reply, attempt: nat, i: nat, stored: Configs)
    requires i < |configs| && configs[i] != [] && replies(attempt, i + 1) != Done
    requires Reached(configs, replies, attempt, i) && Progress(configs, stored, bundle, i)
    ensures !Reached(configs, replies, attempt, |configs|)
    ensures Stored(configs, bundle, replies, attempt) ==
            if replies(attempt, i + 1) == Refused then stored else stored[i := Filled(configs[i], bundle)]
  {
    var all := Stored(configs, bundle, replies, attempt);
    forall k | 0 <= k < i ensures all[k] == stored[k] {
      if configs[k] == [] { assert Filled(configs[k], bundle) == []; }
    }
    forall k | i < k < |configs| ensures all[k] == stored[k] { assert !Reached(configs, replies, attempt, k); }
  }

  lemma AllStored(configs: Configs, bundle: Bundle, replies: (nat, nat) -> Reply, attempt: nat, stored: Configs)
    requires Reached(configs, replies, attempt, |configs|) && Progress(configs, stored, bundle, |configs|)
    ensures stored == Stored(configs, bundle, replies, attempt)
  {
    forall k | 0 <= k < |configs| ensures stored[k] == Stored(configs, bundle, replies, attempt)[k] {
      if configs[k] == [] { assert Filled(configs[k], bundle) == []; }
    }
  }

  /** The answers met in one tick: those of the retry of a pending bundle, of the
      certificate manager, and of the injection of a fresh bundle. */
  datatype Tick = Tick(retry: Answers, check: CheckReply, ensured: EnsureReply, inject: Answers)

  /** For each attempt: whether the context is already cancelled, and the answers
      to the calls on validating and on mutating configurations. */
  datatype Answers = Answers(cancelled: nat -> bool, validating: (nat, nat) -> Reply, mutating: (nat, nat) -> Reply)

  /** The tick renews the certificates. */
  predicate Issues(tick: Tick) { tick.check == NeedsRotation && tick.ensured.Issued? }

  /** How an injection ended, and the configurations it left. */
  datatype Outcome = Outcome(ok: bool, validating: Configs, mutating: Configs)

  /** One attempt: validating configurations first, then the mutating ones. */
  ghost function Injected(v: Configs, m: Configs, bundle: Bundle, answers: Answers, attempt: nat): Outcome {
    var first := Stored(v, bundle, answers.validating, attempt);
    if !Reached(v, answers.validating, attempt, |v|) then Outcome(false, first, m)
    else Outcome(Reached(m, answers.mutating, attempt, |m|), first, Stored(m, bundle, answers.mutating, attempt))
  }

  /** The attempts from number `a` on; a cancelled context ends them. */
  ghost function Retried(v: Configs, m: Configs, bundle: Bundle, answers: Answers, a: nat): Outcome
    decreases MAX_RETRIES + 1 - a
  {
    if a > MAX_RETRIES || answers.cancelled(a) then Outcome(false, v, m)
    else
      var o := Injected(v, m, bundle, answers, a);
      if o.ok then o else Retried(o.validating, o.mutating, bundle, answers, a + 1)
  }

  lemma InjectedSpreads(v: Configs, m: Configs, bundle: Bundle, answers: Answers, attempt: nat)
    ensures var o := Injected(v, m, bundle, answers, attempt);
            && Spread(v, o.validating, bundle) && Spread(m, o.mutating, bundle)
            && (o.ok ==> AllCarry(o.validating, bundle) && AllCarry(o.mutating, bundle))
  {
    StoredSpreads(v, bundle, answers.validating, attempt);
    StoredSpreads(m, bundle, answers.mutating, attempt);
  }

  lemma {:induction false} RetriedSpreads(v: Configs, m: Configs, bundle: Bundle, answers: Answers, a: nat)
    ensures var o := Retried(v, m, bundle, answers, a);
            && Spread(v, o.validating, bundle) && Spread(m, o.mutating, bundle)
            && (o.ok ==> AllCarry(o.validating, bundle) && AllCarry(o.mutating, bundle))
    decreases MAX_RETRIES + 1 - a
  {
    if a <= MAX_RETRIES && !answers.cancelled(a) {
      var o := Injected(v, m, bundle, answers, a);
      InjectedSpreads(v, m, bundle, answers, a);
      if !o.ok {
        RetriedSpreads(o.validating, o.mutating, bundle, answers, a + 1);
        var r := Retried(o.validating, o.mutating, bundle, answers, a + 1);
        SpreadMore(v, o.validating, r.validating, bundle);
        SpreadMore(m, o.mutating, r.mutating, bundle);
      }
    }
  }

  /** The retries succeed when some attempt can. */
  lemma {:induction false} RetriedSucceeds(v: Configs, m: Configs, bundle: Bundle, answers: Answers, a: nat, clean: nat)
    requires a <= clean <= MAX_RETRIES && Clean(answers, clean)
    ensures Retried(v, m, bundle, answers, a).ok
    decreases clean - a
  {
    var o := Injected(v, m, bundle, answers, a);
    if a < clean && !o.ok { RetriedSucceeds(o.validating, o.mutating, bundle, answers, a + 1, clean); }
  }

  /** What a tick makes of the webhooks and of the pending bundle. */
  ghost function AfterTick(s: Moment, tick: Tick): Moment {
    var r := if s.pending.Some? then Retried(s.validating, s.mutating, s.pending, tick.retry, 0)
             else Outcome(false, s.validating, s.mutating);
    if !Issues(tick) then Moment(r.validating, r.mutating, s.issued, if r.ok then None else s.pending)
    else
      var o := Retried(r.validating, r.mutating, tick.ensured.bundle, tick.inject, 0);
      Moment(o.validating, o.mutating, tick.ensured.bundle, if o.ok then None else tick.ensured.bundle)
  }

  /** A tick renews the certificates when rotation is needed and the manager answers, and never otherwise. */
  lemma RenewsExactly(s: Moment, retry: Answers, inject: Answers, ensured: EnsureReply)
    ensures AfterTick(s, Tick(retry, CheckFailed, ensured, inject)).issued == s.issued
    ensures AfterTick(s, Tick(retry, NoRotation, ensured, inject)).issued == s.issued
    ensures AfterTick(s, Tick(retry, NeedsRotation, EnsureFailed, inject)).issued == s.issued
    ensures forall b :: AfterTick(s, Tick(retry, NeedsRotation, Issued(b), inject)).issued == b
  {}

  /** The mutating configurations wait for the validating ones. */
  lemma MutatingWait(v: Configs, m: Configs, bundle: Bundle, answers: Answers, attempt: nat)
    requires exists i :: 0 <= i < |v| && v[i] != [] && !answers.validating(attempt, i + 1).Done?
    ensures var o := Injected(v, m, bundle, answers, attempt); !o.ok && o.mutating == m
  {}

  /** There are six attempts and no more: when each of them is refused, no later answer matters. */
  lemma SixAttempts(v: Configs, m: Configs, bundle: Bundle, answers: Answers)
    requires forall a :: 0 <= a <= 5 ==> answers.validating(a, 0) == Refused
    ensures Retried(v, m, bundle, answers, 0) == Outcome(false, v, m)
  {
    RefusedAttempts(v, m, bundle, answers, 0);
  }

  lemma {:induction false} RefusedAttempts(v: Configs, m: Configs, bundle: Bundle, answers: Answers, a: nat)
    requires forall i :: 0 <= i <= 5 ==> answers.validating(i, 0) == Refused
    ensures Retried(v, m, bundle, answers, a) == Outcome(false, v, m)
    decreases MAX_RETRIES + 1 - a
  {
    if a <= MAX_RETRIES && !answers.cancelled(a) {
      assert Stored(v, bundle, answers.validating, a) == v;
      RefusedAttempts(v, m, bundle, answers, a + 1);
    }
  }

  /** A tick keeps the invariant, or establishes it by a renewal. */
  lemma TickIsSound(s: Moment, tick: Tick)
    requires (SoundAt(s) || Issues(tick)) && AfterTick(s, tick).issued.Some?
    ensures SoundAt(AfterTick(s, tick))
  {
    var r := Retried(s.validating, s.mutating, s.pending, tick.retry, 0);
    RetriedSpreads(s.validating, s.mutating, s.pending, tick.retry, 0);
    if Issues(tick) {
      var v, m := if s.pending.Some? then r.validating else s.validating,
                  if s.pending.Some? then r.mutating else s.mutating;
      RetriedSpreads(v, m, tick.ensured.bundle, tick.inject, 0);
    }
  }

  class Operator {
    var validating: Configs
    var mutating: Configs
    ghost var issued: Bundle

    method InjectCABundle(bundle: Bundle, answers: Answers, attempt: nat) returns (ok: bool)
      modifies `validating, `mutating
      ensures Outcome(ok, validating, mutating) ==
              Injected(old(validating), old(mutating), bundle, answers, attempt)
      ensures Spread(old(validating), validating, bundle) && Spread(old(mutating), mutating, bundle)
      ensures ok ==> AllCarry(validating, bundle) && AllCarry(mutating, bundle)
      ensures (forall n :: answers.validating(attempt, n).Done? && answers.mutating(attempt, n).Done?) ==> ok
    {
      ok, validating := InjectInto(validating, bundle, answers.validating, attempt);
      if ok {
        ok, mutating := InjectInto(mutating, bundle, answers.mutating, attempt);
      }
    }

    /** Up to six attempts; a cancelled context ends them. */
    method InjectWithRetry(bundle: Bundle, answers: Answers) returns (ok: bool)
      modifies `validating, `mutating
      ensures Outcome(ok, validating, mutating) == Retried(old(validating), old(mutating), bundle, answers, 0)
      ensures Spread(old(validating), validating, bundle) && Spread(old(mutating), mutating, bundle)
      ensures ok ==> AllCarry(validating, bundle) && AllCarry(mutating, bundle)
      ensures Reachable(answers) ==> ok
    {
      RetriedSpreads(validating, mutating, bundle, answers, 0);
      if Reachable(answers) {
        ghost var clean :| 0 <= clean <= 5 && Clean(answers, clean);
        RetriedSucceeds(validating, mutating, bundle, answers, 0, clean);
      }
      for attempt := 0 to MAX_RETRIES + 1
        invariant Retried(old(validating), old(mutating), bundle, answers, 0) ==
                  Retried(validating, mutating, bundle, answers, attempt)
      {
        if answers.cancelled(attempt) { return false; }
        ok := InjectCABundle(bundle, answers, attempt);
        if ok { return true; }
      }
      return false;
    }

    /** Nothing is pending and all webhooks carry the last bundle, or it is pending. */
    ghost predicate Sound(pending: Bundle)
      reads this
    {
      Consistent(validating, mutating, pending, issued)
    }

    ghost predicate Carried()
      reads this
    {
      AllCarry(validating, issued) && AllCarry(mutating, issued)
    }

    ghost function Now(pending: Bundle): Moment
      reads this
    {
      Moment(validating, mutating, issued, pending)
    }

    /** One tick: retry what is pending, then rotate when needed and inject the fresh bundle. */
    method RotateOnce(pending: Bundle, tick: Tick) returns (next: Bundle)
      modifies this
      ensures Now(next) == AfterTick(old(Now(pending)), tick)
      ensures issued == if Issues(tick) then tick.ensured.bundle else old(issued)
      ensures (old(Sound(pending)) || Issues(tick)) && issued.Some? ==> Sound(next)
      ensures Issues(tick) && Reachable(tick.inject) ==> next == None
      ensures !Issues(tick) && Reachable(tick.retry) ==> next == None
      ensures !Issues(tick) && pending == None ==>
                next == None && validating == old(validating) && mutating == old(mutating)
    {
      ghost var was := Now(pending);
      if (SoundAt(was) || Issues(tick)) && AfterTick(was, tick).issued.Some? { TickIsSound(was, tick); }
      next := pending;
      if next != None {
        var ok := InjectWithRetry(next, tick.retry);
        if ok { next := None; }
      }
      if tick.check != NeedsRotation || tick.ensured.EnsureFailed? { return; }
      issued := tick.ensured.bundle;
      var ok := InjectWithRetry(tick.ensured.bundle, tick.inject);
      next := if ok then None else tick.ensured.bundle;
    }

    /** The rotation loop of one leader, which begins with nothing pending: after any number of ticks
        with any failures the webhooks trust the current CA or its bundle is pending, if and
        only if they trusted it at the beginning or the leader has renewed it since. */
    method RunCertRotation(ticks: seq<Tick>) returns (pending: Bundle)
      requires issued.Some? && Renewals(ticks)
      modifies this
      ensures issued.Some?
      ensures Sound(pending) <==> old(Carried()) || exists j :: 0 <= j < |ticks| && Issues(ticks[j])
      ensures Sound(pending) && ticks != [] && Works(ticks[|ticks| - 1]) ==> Carried()
    {
      pending := None;
      for i := 0 to |ticks|
        invariant issued.Some?
        invariant Sound(pending) <==> old(Carried()) || exists j :: 0 <= j < i && Issues(ticks[j])
        invariant !Sound(pending) ==> pending == None
        invariant i > 0 && Works(ticks[i - 1]) ==> pending == None
      {
        pending := RotateOnce(pending, ticks[i]);
      }
    }

    /** Any number of leaders, one after the other; each begins with nothing pending.  `trace` holds
        the moment before each event and the last one. */
    method RunLeaders(events: seq<Event>) returns (pending: Bundle, ghost trace: seq<Moment>)
      requires issued.Some? && forall i :: 0 <= i < |events| && events[i].LeaderTick? ==> Renews(events[i].tick)
      modifies this
      ensures |trace| == |events| + 1 && trace[0] == old(Now(None)) && trace[|events|] == Now(pending)
      ensures forall k :: 0 <= k < |events| ==> trace[k + 1] == After(trace[k], events[k])
      ensures forall k :: 0 <= k <= |events| ==> (SoundAt(trace[k]) <==> !Stranded(events, trace, k))
    {
      pending := None;
      trace := [Now(None)];
      for i := 0 to |events|
        invariant |trace| == i + 1 && trace[0] == old(Now(None)) && trace[i] == Now(pending)
        invariant forall k :: 0 <= k < i ==> trace[k + 1] == After(trace[k], events[k])
      {
        match events[i] {
          case LeaderChange => pending := None;
          case LeaderTick(tick) => pending := RotateOnce(pending, tick);
        }
        trace := trace + [Now(pending)];
      }
      forall k | 0 <= k <= |events| ensures SoundAt(trace[k]) <==> !Stranded(events, trace, k) {
        SoundExactly(events, trace, k);
      }
    }
  }

  /** Both injections of the tick can succeed. */
  ghost predicate Works(tick: Tick) { Reachable(tick.retry) && Reachable(tick.inject) }

  /** A renewal yields a bundle. */
  predicate Renews(tick: Tick) { tick.ensured.Issued? ==> tick.ensured.bundle.Some? }

  predicate Renewals(ticks: seq<Tick>) { forall i :: 0 <= i < |ticks| ==> Renews(ticks[i]) }

  /** What happens to the rotation: the leader's timer fires, or another replica becomes leader. */
  datatype Event = LeaderTick(tick: Tick) | LeaderChange

  datatype Moment = Moment(validating: Configs, mutating: Configs, issued: Bundle, pending: Bundle)

  ghost predicate SoundAt(m: Moment) { Consistent(m.validating, m.mutating, m.pending, m.issued) }

  ghost predicate CarriedAt(m: Moment) { AllCarry(m.validating, m.issued) && AllCarry(m.mutating, m.issued) }

  ghost function After(s: Moment, e: Event): Moment {
    match e
    case LeaderTick(tick) => AfterTick(s, tick)
    case LeaderChange => s.(pending := None)
  }

  /** The current leader took over while some webhook did not carry the last bundle, and has not
      renewed the certificates since. */
  ghost predicate Stranded(events: seq<Event>, trace: seq<Moment>, k: nat)
    requires k <= |events| && k < |trace|
  {
    if k == 0 then !CarriedAt(trace[0])
    else match events[k - 1]
      case LeaderChange => !CarriedAt(trace[k - 1])
      case LeaderTick(tick) => !Issues(tick) && Stranded(events, trace, k - 1)
  }

  ghost predicate IsTrace(events: seq<Event>, trace: seq<Moment>) {
    && |trace| == |events| + 1 && trace[0].pending == None && trace[0].issued.Some?
    && (forall k :: 0 <= k < |events| ==> trace[k + 1] == After(trace[k], events[k]))
    && (forall k :: 0 <= k < |events| && events[k].LeaderTick? ==> Renews(events[k].tick))
  }

  /** The invariant holds exactly at the moments that are not stranded. */
  lemma {:induction false} SoundExactly(events: seq<Event>, trace: seq<Moment>, k: nat)
    requires IsTrace(events, trace) && k <= |events|
    ensures SoundExactlyAt(events, trace, k)
  {
    if k > 0 {
      SoundExactly(events, trace, k - 1);
      TraceStep(events, trace, k - 1);
      SoundStep(events, trace, k - 1);
    }
  }

  ghost predicate SoundExactlyAt(events: seq<Event>, trace: seq<Moment>, k: nat)
    requires k <= |events| && k < |trace|
  {
    && (SoundAt(trace[k]) <==> !Stranded(events, trace, k))
    && trace[k].issued.Some? && (!SoundAt(trace[k]) ==> trace[k].pending == None)
  }

  ghost predicate IsStep(s: Moment, e: Event, t: Moment) {
    t == After(s, e) && (e.LeaderTick? ==> Renews(e.tick))
  }

  lemma TraceStep(events: seq<Event>, trace: seq<Moment>, k: nat)
    requires IsTrace(events, trace) && k < |events|
    ensures IsStep(trace[k], events[k], trace[k + 1])
  {}

  lemma SoundStep(events: seq<Event>, trace: seq<Moment>, k: nat)
    requires k < |events| && k + 1 < |trace| && IsStep(trace[k], events[k], trace[k + 1])
    requires SoundExactlyAt(events, trace, k)
    ensures SoundExactlyAt(events, trace, k + 1)
  {
    SoundAfter(trace[k], events[k]);
  }

  lemma SoundAfter(s: Moment, e: Event)
    requires s.issued.Some? && (!SoundAt(s) ==> s.pending == None) && (e.LeaderTick? ==> Renews(e.tick))
    ensures SoundAt(After(s, e)) <==> if e.LeaderChange? then CarriedAt(s) else Issues(e.tick) || SoundAt(s)
    ensures After(s, e).issued.Some? && (!SoundAt(After(s, e)) ==> After(s, e).pending == None)
  {
    if e.LeaderTick? && (SoundAt(s) || Issues(e.tick)) { TickIsSound(s, e.tick); }
  }

  /** A change of leader is harmless, whatever the webhooks hold, if and only if nothing was pending. */
  lemma ChangeIsHarmlessExactly(pending: Bundle, issued: Bundle)
    requires issued.Some? && (pending == None || pending == issued)
    ensures (forall v: Configs, m: Configs :: Consistent(v, m, pending, issued) ==> Consistent(v, m, None, issued)) <==>
            pending == None
  {
    if pending.Some? {
      var v: Configs := [[None]];
      assert v[0][0] != issued;
      assert Consistent(v, [], pending, issued) && !Consistent(v, [], None, issued);
    }
  }

  /** Every list call of the injection is refused. */
  ghost predicate Refusing(answers: Answers) { forall a: nat :: answers.validating(a, 0) == Refused }

  lemma {:induction false} RefusedChangesNothing(v: Configs, m: Configs, bundle: Bundle, answers: Answers, a: nat)
    requires Refusing(answers)
    ensures Retried(v, m, bundle, answers, a) == Outcome(false, v, m)
    decreases MAX_RETRIES + 1 - a
  {
    if a <= MAX_RETRIES && !answers.cancelled(a) {
      assert answers.validating(a, 0) == Refused;
      assert Stored(v, bundle, answers.validating, a) == v;
      RefusedChangesNothing(v, m, bundle, answers, a + 1);
    }
  }

  ghost predicate HasEntry(s: Moment) {
    || (exists i :: 0 <= i < |s.validating| && s.validating[i] != [])
    || (exists i :: 0 <= i < |s.mutating| && s.mutating[i] != [])
  }

  lemma OneBundleOnly(s: Moment, b: Bundle)
    requires CarriedAt(s) && HasEntry(s) && b != s.issued
    ensures !(AllCarry(s.validating, b) && AllCarry(s.mutating, b))
  {
    if i :| 0 <= i < |s.validating| && s.validating[i] != [] {
      assert s.validating[i][0] == s.issued;
    } else {
      var i :| 0 <= i < |s.mutating| && s.mutating[i] != [];
      assert s.mutating[i][0] == s.issued;
    }
  }

  /** From every moment at which all webhooks carry the last bundle: a tick that issues another one while
      the API server refuses the injection, and then a change of leader, leave the new
      bundle stranded: no webhook has it and nothing is pending. */
  lemma ChangeStrands(s: Moment, tick: Tick)
    requires s.pending == None && CarriedAt(s) && HasEntry(s)
    requires Issues(tick) && tick.ensured.bundle.Some? && tick.ensured.bundle != s.issued && Refusing(tick.inject)
    ensures SoundAt(After(s, LeaderTick(tick)))
    ensures var t := After(After(s, LeaderTick(tick)), LeaderChange);
            t == s.(issued := tick.ensured.bundle) && !SoundAt(t)
  {
    RefusedChangesNothing(s.validating, s.mutating, tick.ensured.bundle, tick.inject, 0);
    OneBundleOnly(s, tick.ensured.bundle);
  }

  /** Some attempt within the budget meets no failure and no cancellation before it. */
  ghost predicate Reachable(answers: Answers) {
    exists a :: 0 <= a <= 5 && Clean(answers, a)
  }

  ghost predicate Clean(answers: Answers, attempt: nat) {
    && (forall a: nat :: a <= attempt ==> !answers.cancelled(a))
    && (forall n: nat :: answers.validating(attempt, n).Done? && answers.mutating(attempt, n).Done?)
  }

  /** The pending mechanism works exactly for bundles that are not nil: a nil
      bundle whose injection is refused is forgotten. */
  lemma NilBundleIsForgotten(bundle: Bundle)
    ensures bundle.Some? <==>
            forall s: Moment, tick: Tick ::
              Issues(tick) && tick.ensured.bundle == bundle ==> SoundAt(AfterTick(s, tick))
  {
    if bundle.None? {
      var refused := (a: nat, n: nat) => Refused;
      var none := Answers((a: nat) => false, refused, refused);
      var tick := Tick(none, NeedsRotation, Issued(None), none);
      var s := Moment([[Some(0)]], [], Some(0), None);
      assert s.validating[0][0] == Some(0);
      RefusedChangesNothing(s.validating, s.mutating, None, none, 0);
      assert !SoundAt(AfterTick(s, tick));
    } else {
      forall s: Moment, tick: Tick | Issues(tick) && tick.ensured.bundle == bundle ensures SoundAt(AfterTick(s, tick)) {
        TickIsSound(s, tick);
      }
    }
  }
}
