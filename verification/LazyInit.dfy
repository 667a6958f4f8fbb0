/** Double-checked initialisation by any number of threads
    (composition/production_bootstrap_runtime.py, composition/production_dynamic_feature_builder.py). */
module LazyInit {
  import opened Basics

  type Resolver = nat

  // What one call of the factory gives: it may raise, or build something without the methods
  // a resolver must have.
  datatype Built = FactoryRaises | Invalid(unusable: Resolver) | Usable(resolver: Resolver)

  datatype Outcome = Returned(resolver: Resolver) | Raised

  // Where one `_delegate` call stands; every phase ends with one access to shared state.
  datatype Phase =
    | Entered
    | Waiting
    | Locked
    | Building
    | Installing(built: Resolver)
    | Leaving(outcome: Outcome)

  datatype Shared = Shared(
    field: Option<Resolver>, holder: Option<nat>, threads: map<nat, Phase>,
    finished: seq<Outcome>, installed: seq<Resolver>)

  // `Call` enters `_delegate` on a thread that is not inside it; `Step` runs one access of it.
  datatype Event = Call(thread: nat) | Step(thread: nat, factory: Built)

  const FRESH: Shared := Shared(None, None, map[], [], [])

  ghost function Move(s: Shared, t: nat, phase: Phase): Shared {
    s.(threads := s.threads[t := phase])
  }

  ghost function Finish(s: Shared, t: nat, outcome: Outcome): Shared {
    s.(threads := s.threads - {t}, finished := s.finished + [outcome])
  }

  ghost function Advance(s: Shared, t: nat, factory: Built): Shared
    requires t in s.threads
  {
    match s.threads[t]
    case Entered => if s.field.Some? then Finish(s, t, Returned(s.field.value)) else Move(s, t, Waiting)
    case Waiting => if s.holder.None? then Move(s.(holder := Some(t)), t, Locked) else s
    case Locked => if s.field.Some? then Move(s, t, Leaving(Returned(s.field.value))) else Move(s, t, Building)
    case Building =>
      (match factory
       case Usable(resolver) => Move(s, t, Installing(resolver))
       case _ => Move(s, t, Leaving(Raised)))
    case Installing(built) =>
      Move(s.(field := Some(built), installed := s.installed + [built]), t, Leaving(Returned(built)))
    case Leaving(outcome) => Finish(s.(holder := None), t, outcome)
  }

  ghost function Apply(s: Shared, event: Event): Shared {
    match event
    case Call(t) => if t in s.threads then s else Move(s, t, Entered)
    case Step(t, factory) => if t in s.threads then Advance(s, t, factory) else s
  }

  ghost function Run(s: Shared, events: seq<Event>): Shared
    decreases |events|
  {
    if events == [] then s else Run(Apply(s, events[0]), events[1..])
  }

  // ------------------------------------------------------------------------ invariants

  ghost predicate InCriticalSection(phase: Phase) {
    !phase.Entered? && !phase.Waiting?
  }

  ghost predicate ThreadFits(s: Shared, t: nat, phase: Phase) {
    && (InCriticalSection(phase) <==> s.holder == Some(t))
    && (phase.Building? || phase.Installing? ==> s.field.None?)
    && (phase.Leaving? && phase.outcome.Returned? ==> s.field == Some(phase.outcome.resolver))
  }

  ghost predicate Safe(s: Shared) {
    && (forall t :: t in s.threads ==> ThreadFits(s, t, s.threads[t]))
    && (s.holder.Some? ==> s.holder.value in s.threads)
    && s.installed == (if s.field.Some? then [s.field.value] else [])
    && (forall i :: 0 <= i < |s.finished| && s.finished[i].Returned? ==> s.field == Some(s.finished[i].resolver))
  }

  lemma AdvanceKeepsSafe(s: Shared, t: nat, factory: Built)
    requires Safe(s) && t in s.threads
    ensures Safe(Advance(s, t, factory))
    ensures s.field.Some? ==> Advance(s, t, factory).field == s.field
  {
    var u := Advance(s, t, factory);
    assert ThreadFits(s, t, s.threads[t]);
    forall v | v in u.threads ensures ThreadFits(u, v, u.threads[v]) {
      if v != t {
        assert ThreadFits(s, v, s.threads[v]);
      }
    }
  }

  lemma {:induction false} RunKeepsSafe(s: Shared, events: seq<Event>)
    requires Safe(s)
    ensures Safe(Run(s, events))
    ensures s.field.Some? ==> Run(s, events).field == s.field
    decreases |events|
  {
    if events != [] {
      var event := events[0];
      if event.Step? && event.thread in s.threads {
        AdvanceKeepsSafe(s, event.thread, event.factory);
      }
      RunKeepsSafe(Apply(s, event), events[1..]);
    }
  }

  // Whatever the interleaving, one resolver at most is installed and every call that returns
  // gives that one.
  lemma {:induction false} OneResolver(events: seq<Event>)
    ensures var s := Run(FRESH, events);
            && |s.installed| <= 1
            && (s.field.Some? <==> |s.installed| == 1)
            && (forall i :: 0 <= i < |s.finished| && s.finished[i].Returned? ==>
                              s.installed == [s.finished[i].resolver])
            && (forall t, u :: t in s.threads && u in s.threads ==> InCriticalSection(s.threads[t]) ==>
                               InCriticalSection(s.threads[u]) ==> t == u)
  {
    RunKeepsSafe(FRESH, events);
    var s := Run(FRESH, events);
    forall t | t in s.threads ensures ThreadFits(s, t, s.threads[t]) {
    }
  }

  // The installed resolver stays, whatever runs afterwards.
  lemma {:induction false} InstalledStays(events: seq<Event>, more: seq<Event>)
    requires Run(FRESH, events).field.Some?
    ensures Run(FRESH, events + more).field == Run(FRESH, events).field
  {
    RunAppend(FRESH, events, more);
    RunKeepsSafe(FRESH, events);
    RunKeepsSafe(Run(FRESH, events), more);
  }

  lemma {:induction false} RunAppend(s: Shared, a: seq<Event>, b: seq<Event>)
    ensures Run(s, a + b) == Run(Run(s, a), b)
    decreases |a|
  {
    if a == [] {
      assert a + b == b;
    } else {
      assert (a + b)[0] == a[0] && (a + b)[1..] == a[1..] + b;
      RunAppend(Apply(s, a[0]), a[1..], b);
    }
  }

  // -------------------------------------------------------------------------- progress

  // A failing factory leaves the field unset and the lock free.
  lemma FailureReleases(s: Shared, t: nat, factory: Built, later: Built)
    requires Safe(s) && t in s.threads && s.threads[t].Building? && !factory.Usable?
    ensures Advance(s, t, factory).threads[t] == Leaving(Raised)
    ensures var u := Advance(Advance(s, t, factory), t, later);
            && u.field.None? && u.holder.None? && u.threads == s.threads - {t}
            && u.finished == s.finished + [Raised] && u.installed == []
  {
    assert ThreadFits(s, t, s.threads[t]);
    assert s.threads[t := Leaving(Raised)] - {t} == s.threads - {t};
  }

  // How many steps a thread inside the lock still needs.
  ghost function StepsLeft(phase: Phase): nat {
    match phase
    case Locked => 4
    case Building => 3
    case Installing(_) => 2
    case _ => 1
  }

  // The holder of the lock never waits: each of its steps brings it closer to the release,
  // and steps of other threads leave it where it is.
  lemma HolderAdvances(s: Shared, event: Event)
    requires Safe(s) && s.holder.Some?
    ensures s.holder.value in s.threads
    ensures event.thread != s.holder.value ==>
              Apply(s, event).holder == s.holder && s.holder.value in Apply(s, event).threads
              && Apply(s, event).threads[s.holder.value] == s.threads[s.holder.value]
    ensures event.Step? && event.thread == s.holder.value ==>
              Apply(s, event).holder.None?
              || (Apply(s, event).holder == s.holder && s.holder.value in Apply(s, event).threads
                  && StepsLeft(Apply(s, event).threads[s.holder.value]) < StepsLeft(s.threads[s.holder.value]))
  {
    assert ThreadFits(s, s.holder.value, s.threads[s.holder.value]);
    if event.thread in s.threads {
      assert ThreadFits(s, event.thread, s.threads[event.thread]);
    }
  }

  ghost function Alone(s: Shared, t: nat, factory: Built, n: nat): Shared
    decreases n
  {
    if n == 0 then s else Alone(Apply(s, Step(t, factory)), t, factory, n - 1)
  }

  lemma AloneStep(s: Shared, t: nat, factory: Built, n: nat)
    requires n > 0
    ensures Alone(s, t, factory, n) == Alone(Apply(s, Step(t, factory)), t, factory, n - 1)
  {
  }

  // A call that finds the lock free returns the installed resolver, or installs the one it
  // builds, or raises when its factory fails; it always frees the lock.
  lemma {:induction false} CallCompletes(s: Shared, t: nat, factory: Built)
    requires Safe(s) && s.holder.None? && t !in s.threads
    ensures var u := Alone(Apply(s, Call(t)), t, factory, 6);
            && u.holder.None? && t !in u.threads
            && u.field == (if s.field.Some? then s.field
                           else if factory.Usable? then Some(factory.resolver) else None)
            && u.finished == s.finished + [if u.field.Some? then Returned(u.field.value) else Raised]
  {
    var entered := Apply(s, Call(t));
    var waiting := Apply(entered, Step(t, factory));
    AloneStep(entered, t, factory, 6);
    if s.field.Some? {
      Settled(waiting, t, factory, 5);
    } else {
      var locked := Apply(waiting, Step(t, factory));
      var building := Apply(locked, Step(t, factory));
      var built := Apply(building, Step(t, factory));
      var left := Apply(built, Step(t, factory));
      AloneStep(waiting, t, factory, 5);
      AloneStep(locked, t, factory, 4);
      AloneStep(building, t, factory, 3);
      AloneStep(built, t, factory, 2);
      AloneStep(left, t, factory, 1);
    }
  }

  lemma {:induction false} Settled(s: Shared, t: nat, factory: Built, n: nat)
    requires t !in s.threads
    ensures Alone(s, t, factory, n) == s
    decreases n
  {
    if n > 0 {
      Settled(s, t, factory, n - 1);
    }
  }
}
