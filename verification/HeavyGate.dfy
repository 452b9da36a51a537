/**
  * The demo server's admission gate for heavy operations. Between two awaits a caller runs without interruption, so
  * every execution is a sequence of the steps below, in some order of callers.
  */
module HeavyGate {
  import opened Prelude

  /** Who is in flight: queued callers poll until a slot is free, running callers are inside their operation. */
  datatype State = State(active: nat, queued: nat, waiting: set<nat>, running: set<nat>) {
    predicate InFlight(id: nat) { id in waiting || id in running }
  }

  /** A caller enters, a queued caller's delay is over, or a caller's operation settles, well or badly. */
  datatype Event = Arrive(id: nat) | Wake(id: nat) | Settle(id: nat, failed: bool)

  datatype Limits = Limits(concurrency: nat, queueLimit: nat)

  datatype Outcome = Admitted | Queued | Rejected | StillWaiting | Returned | Threw

  /** Only callers that are where the event puts them can take it, and no caller enters twice. */
  predicate Enabled(s: State, e: Event) {
    match e
    case Arrive(id) => !s.InFlight(id)
    case Wake(id) => id in s.waiting
    case Settle(id, _) => id in s.running
  }

  function Step(l: Limits, s: State, e: Event): (r: (State, Outcome))
    requires Enabled(s, e) && Consistent(l, s)
  {
    match e
    case Arrive(id) =>
      if s.active < l.concurrency then (s.(active := s.active + 1, running := s.running + {id}), Admitted)
      else if s.queued >= l.queueLimit then (s, Rejected)
      else (s.(queued := s.queued + 1, waiting := s.waiting + {id}), Queued)
    case Wake(id) =>
      if s.active >= l.concurrency then (s, StillWaiting)
      else
        Occupied(s.waiting, id);
        (State(s.active + 1, s.queued - 1, s.waiting - {id}, s.running + {id}), Admitted)
    case Settle(id, failed) =>
      Occupied(s.running, id);
      (s.(active := s.active - 1, running := s.running - {id}), if failed then Threw else Returned)
  }

  lemma Occupied(ids: set<nat>, id: nat)
    requires id in ids
    ensures |ids| > 0 && |ids - {id}| == |ids| - 1
  {}

  /** The counters count the callers, and both limits hold. */
  predicate Consistent(l: Limits, s: State) {
    && s.active == |s.running| && s.queued == |s.waiting|
    && s.active <= l.concurrency && s.queued <= l.queueLimit && s.waiting !! s.running
  }

  lemma StepKeepsConsistent(l: Limits, s: State, e: Event)
    requires Consistent(l, s) && Enabled(s, e)
    ensures Consistent(l, Step(l, s, e).0)
  {
    match e {
      case Arrive(id) =>
        ArriveKeeps(l, s, id);
      case Wake(id) =>
        WakeKeeps(l, s, id);
      case Settle(id, failed) =>
        SettleKeeps(l, s, id, failed);
    }
  }

  lemma ArriveKeeps(l: Limits, s: State, id: nat)
    requires Consistent(l, s) && !s.InFlight(id)
    ensures Consistent(l, Step(l, s, Arrive(id)).0)
  {
    assert |s.running + {id}| == |s.running| + 1 && |s.waiting + {id}| == |s.waiting| + 1;
  }

  lemma WakeKeeps(l: Limits, s: State, id: nat)
    requires Consistent(l, s) && id in s.waiting
    ensures Consistent(l, Step(l, s, Wake(id)).0)
  {
    Occupied(s.waiting, id);
    assert |s.running + {id}| == |s.running| + 1;
  }

  lemma SettleKeeps(l: Limits, s: State, id: nat, failed: bool)
    requires Consistent(l, s) && id in s.running
    ensures Consistent(l, Step(l, s, Settle(id, failed)).0)
  {
    Occupied(s.running, id);
  }

  // ---- Runs

  function Start(): State { State(0, 0, {}, {}) }

  /** The state and the outcomes after some events, if each was possible in its turn. */
  function Run(l: Limits, events: seq<Event>): (r: Option<(State, seq<Outcome>)>)
    ensures r.Some? ==> Consistent(l, r.value.0) && |r.value.1| == |events|
  {
    if events == [] then Some((Start(), []))
    else
      match Run(l, events[..|events| - 1])
      case None => None
      case Some((s, out)) =>
        var e := events[|events| - 1];
        if !Enabled(s, e) then None
        else
          StepKeepsConsistent(l, s, e);
          Some((Step(l, s, e).0, out + [Step(l, s, e).1]))
  }

  /**
    * Safety of every run, whatever the number of callers and their interleaving: `active` is the number of callers
    * inside an operation and never exceeds the concurrency, `queued` is the number of waiting callers and never
    * exceeds the queue limit, and both are 0 exactly when nobody is in flight.
    */
  lemma EveryRunIsSafe(l: Limits, events: seq<Event>)
    requires Run(l, events).Some?
    ensures var s := Run(l, events).value.0;
            && s.active == |s.running| <= l.concurrency && s.queued == |s.waiting| <= l.queueLimit
            && (s.active == 0 && s.queued == 0 <==> forall id :: !s.InFlight(id))
  {
    var s := Run(l, events).value.0;
    if forall id :: !s.InFlight(id) {
      assert s.waiting == {} && s.running == {} by {
        forall id
          ensures id !in s.waiting && id !in s.running
        {
          assert !s.InFlight(id);
        }
      }
    }
  }

  /** A caller is turned away exactly when all slots and the whole queue are taken, and that changes nothing. */
  lemma RejectionChangesNothing(l: Limits, s: State, id: nat)
    requires Consistent(l, s) && !s.InFlight(id)
    ensures var (s', outcome) := Step(l, s, Arrive(id));
            && (outcome == Rejected <==> |s.running| == l.concurrency && |s.waiting| == l.queueLimit)
            && (outcome == Rejected ==> s' == s)
            && (outcome != Rejected ==> s'.InFlight(id))
  {}

  /** The same event up to whether an operation fails. */
  predicate AlikeButFailure(e: Event, e': Event) {
    e == e' || (e.Settle? && e'.Settle? && e.id == e'.id)
  }

  predicate AlikeOutcome(o: Outcome, o': Outcome) { o == o' || {o, o'} == {Returned, Threw} }

  /**
    * Failing operations release their slots: whichever operations of a run fail, the run is possible, takes the same
    * states and turns every caller away, queues or admits it as before; only what the callers concerned get differs.
    * That one step serves both paths is what `Gate.Leave` shows, which goes through each of them.
    */
  lemma {:induction false} FailuresAreMute(l: Limits, events: seq<Event>, events': seq<Event>)
    requires |events| == |events'| && forall i :: 0 <= i < |events| ==> AlikeButFailure(events[i], events'[i])
    ensures Run(l, events).None? <==> Run(l, events').None?
    ensures Run(l, events).Some? ==>
              var ((s, out), (s', out')) := (Run(l, events).value, Run(l, events').value);
              s == s' && forall i :: 0 <= i < |events| ==> AlikeOutcome(out[i], out'[i])
  {
    if events != [] {
      var n := |events| - 1;
      FailuresAreMute(l, events[..n], events'[..n]);
      assert AlikeButFailure(events[n], events'[n]);
      if Run(l, events[..n]).Some? && Enabled(Run(l, events[..n]).value.0, events[n]) {
        AlikeSteps(l, Run(l, events[..n]).value.0, events[n], events'[n]);
      }
    }
  }

  lemma AlikeSteps(l: Limits, s: State, e: Event, e': Event)
    requires Consistent(l, s) && Enabled(s, e) && AlikeButFailure(e, e')
    ensures Enabled(s, e') && Step(l, s, e).0 == Step(l, s, e').0 && AlikeOutcome(Step(l, s, e).1, Step(l, s, e').1)
  {}

  function CountOf(out: seq<Outcome>, o: Outcome): nat {
    if out == [] then 0 else CountOf(out[..|out| - 1], o) + (if out[|out| - 1] == o then 1 else 0)
  }

  function Arrivals(events: seq<Event>): nat {
    if events == [] then 0 else Arrivals(events[..|events| - 1]) + (if events[|events| - 1].Arrive? then 1 else 0)
  }

  /** A step moves one caller in, on, or out. */
  lemma StepCounts(l: Limits, s: State, e: Event)
    requires Consistent(l, s) && Enabled(s, e)
    ensures var (s', o) := Step(l, s, e);
            (if o == Rejected then 1 else 0) + (if o == Returned || o == Threw then 1 else 0) + s'.active + s'.queued ==
            s.active + s.queued + (if e.Arrive? then 1 else 0)
  {}

  /** No caller is lost: each one that came was rejected, got its result or error, or is in flight. */
  lemma {:induction false} CallersAreConserved(l: Limits, events: seq<Event>)
    requires Run(l, events).Some?
    ensures var (s, out) := Run(l, events).value;
            Arrivals(events) == CountOf(out, Rejected) + CountOf(out, Returned) + CountOf(out, Threw) + s.active + s.queued
  {
    hide Step, Consistent, Enabled;
    if events != [] {
      var n := |events| - 1;
      CallersAreConserved(l, events[..n]);
      var (s, out) := Run(l, events[..n]).value;
      StepCounts(l, s, events[n]);
      var o := Step(l, s, events[n]).1;
      assert (out + [o])[..|out|] == out;
    }
  }

  /** A free slot goes to whichever waiting caller wakes first. */
  lemma WakingFillsSlot(l: Limits, s: State, id: nat)
    requires Consistent(l, s) && id in s.waiting && s.active < l.concurrency
    ensures var (s', outcome) := Step(l, s, Wake(id));
            outcome == Admitted && id in s'.running && s'.queued == s.queued - 1
  {}

  lemma RunNext(l: Limits, events: seq<Event>, e: Event)
    requires Run(l, events).Some? && Enabled(Run(l, events).value.0, e)
    ensures Run(l, events + [e]).Some? && Run(l, events + [e]).value.0 == Step(l, Run(l, events).value.0, e).0
  {
    assert (events + [e])[..|events|] == events;
  }

  predicate NoArrival(events: seq<Event>) { forall e :: e in events ==> !e.Arrive? }

  /** From every reachable state the gate empties without further arrivals: no caller is stuck as long as there is a slot. */
  lemma {:induction false} GateDrains(l: Limits, events: seq<Event>)
    requires l.concurrency > 0 && Run(l, events).Some?
    ensures exists more :: NoArrival(more) && Run(l, events + more).Some? && Run(l, events + more).value.0 == Start()
    decreases 2 * |Run(l, events).value.0.waiting| + |Run(l, events).value.0.running|
  {
    hide Run, Consistent;
    var s := Run(l, events).value.0;
    ReachedIsConsistent(l, events);
    if s.running == {} && s.waiting == {} {
      IdleIsStart(l, s);
      assert events + [] == events;
      assert NoArrival([]) && Run(l, events + []).Some?;
    } else {
      var e := SomeProgress(l, s);
      RunNext(l, events, e);
      ProgressShrinks(l, s, e);
      GateDrains(l, events + [e]);
      var more :| NoArrival(more) && Run(l, events + [e] + more).Some? && Run(l, events + [e] + more).value.0 == Start();
      assert events + ([e] + more) == events + [e] + more;
      assert NoArrival([e] + more);
    }
  }

  lemma ReachedIsConsistent(l: Limits, events: seq<Event>)
    requires Run(l, events).Some?
    ensures Consistent(l, Run(l, events).value.0)
  {}

  lemma IdleIsStart(l: Limits, s: State)
    requires Consistent(l, s) && s.running == {} && s.waiting == {}
    ensures s == Start()
  {}

  /** A running caller settles, or, if none is running, a waiting one wakes. */
  ghost function SomeProgress(l: Limits, s: State): (e: Event)
    requires Consistent(l, s) && (s.running != {} || s.waiting != {})
    ensures Enabled(s, e) && (e.Settle? || (e.Wake? && s.running == {}))
  {
    if s.running != {} then
      var id :| id in s.running;
      Settle(id, false)
    else
      var id :| id in s.waiting;
      Wake(id)
  }

  lemma ProgressShrinks(l: Limits, s: State, e: Event)
    requires Consistent(l, s) && l.concurrency > 0 && Enabled(s, e) && (e.Settle? || (e.Wake? && s.running == {}))
    ensures var s' := Step(l, s, e).0; 2 * |s'.waiting| + |s'.running| < 2 * |s.waiting| + |s.running|
  {
    if e.Settle? {
      SettleKeeps(l, s, e.id, e.failed);
    } else {
      WakingFillsSlot(l, s, e.id);
      StepKeepsConsistent(l, s, e);
    }
  }

  /** A run whose last event lets a newcomer in while an earlier caller is still queued. */
  ghost predicate Overtakes(l: Limits, events: seq<Event>, newcomer: nat, queued: nat) {
    && Run(l, events).Some? && events != [] && events[|events| - 1] == Arrive(newcomer)
    && Run(l, events).value.1[|events| - 1] == Admitted
    && Run(l, events[..|events| - 1]).Some? && queued in Run(l, events[..|events| - 1]).value.0.waiting
    && queued in Run(l, events).value.0.waiting
  }

  /** As many callers as there are slots arrive. */
  function Fill(k: nat): (events: seq<Event>)
    ensures |events| == k
  {
    if k == 0 then [] else Fill(k - 1) + [Arrive(k - 1)]
  }

  function Below(k: nat): (s: set<nat>)
    ensures |s| == k && forall i: nat :: i in s <==> i < k
  {
    if k == 0 then {} else Below(k - 1) + {k - 1}
  }

  lemma {:induction false} FillRuns(l: Limits, k: nat)
    requires k <= l.concurrency
    ensures Run(l, Fill(k)).Some? && Run(l, Fill(k)).value.0 == State(k, 0, {}, Below(k))
  {
    if k > 0 {
      FillRuns(l, k - 1);
      RunNext(l, Fill(k - 1), Arrive(k - 1));
    }
  }

  /** One more arrives and queues, the first one leaves, and a newcomer takes its slot. */
  function Overtaking(c: nat): seq<Event> { Fill(c) + [Arrive(c)] + [Settle(0, false)] + [Arrive(c + 1)] }

  lemma OvertakingRuns(l: Limits)
    requires l.concurrency >= 1 && l.queueLimit >= 1
    ensures Overtakes(l, Overtaking(l.concurrency), l.concurrency + 1, l.concurrency)
  {
    hide Run, Step, Enabled, Consistent, Below;
    var c := l.concurrency;
    var inside := Below(c);
    var one := Fill(c) + [Arrive(c)];
    var two := one + [Settle(0, false)];
    FillRuns(l, c);
    QueueStep(l, inside, c);
    RunNext(l, Fill(c), Arrive(c));
    FreeStep(l, inside, c, 0);
    RunNext(l, one, Settle(0, false));
    AdmitStep(l, inside - {0}, c, c + 1);
    RunNext(l, two, Arrive(c + 1));
    LastOutcome(l, two, Arrive(c + 1));
    assert (two + [Arrive(c + 1)])[..|two|] == two;
  }

  lemma QueueStep(l: Limits, inside: set<nat>, id: nat)
    requires |inside| == l.concurrency && l.queueLimit >= 1 && id !in inside
    ensures var s := State(|inside|, 0, {}, inside);
            && Consistent(l, s) && Enabled(s, Arrive(id))
            && Step(l, s, Arrive(id)) == (State(|inside|, 1, {id}, inside), Queued)
  {
    assert {} + {id} == {id};
  }

  lemma FreeStep(l: Limits, inside: set<nat>, id: nat, leaver: nat)
    requires |inside| == l.concurrency && l.queueLimit >= 1 && id !in inside && leaver in inside
    ensures var s := State(|inside|, 1, {id}, inside);
            && Consistent(l, s) && Enabled(s, Settle(leaver, false)) && |inside - {leaver}| == |inside| - 1
            && Step(l, s, Settle(leaver, false)).0 == State(|inside| - 1, 1, {id}, inside - {leaver})
  {
    Occupied(inside, leaver);
  }

  lemma AdmitStep(l: Limits, inside: set<nat>, id: nat, newcomer: nat)
    requires |inside| < l.concurrency && l.queueLimit >= 1 && id !in inside && newcomer !in inside && newcomer != id
    ensures var s := State(|inside|, 1, {id}, inside);
            && Consistent(l, s) && Enabled(s, Arrive(newcomer))
            && Step(l, s, Arrive(newcomer)) == (State(|inside| + 1, 1, {id}, inside + {newcomer}), Admitted)
  {}

  lemma LastOutcome(l: Limits, events: seq<Event>, e: Event)
    requires Run(l, events).Some? && Enabled(Run(l, events).value.0, e)
    ensures Run(l, events + [e]).Some? && Run(l, events + [e]).value.1[|events|] == Step(l, Run(l, events).value.0, e).1
  {
    assert (events + [e])[..|events|] == events;
  }

  /** Waiting is not first come, first served: a queued caller can be overtaken if and only if callers can run and can queue. */
  lemma NewcomerOvertakes(l: Limits)
    ensures (exists events, newcomer, queued :: Overtakes(l, events, newcomer, queued)) <==> l.concurrency >= 1 && l.queueLimit >= 1
  {
    if events, newcomer, queued :| Overtakes(l, events, newcomer, queued) {
      ReachedIsConsistent(l, events);
      var s := Run(l, events[..|events| - 1]).value.0;
      ReachedIsConsistent(l, events[..|events| - 1]);
      assert events == events[..|events| - 1] + [events[|events| - 1]];
      LastOutcome(l, events[..|events| - 1], events[|events| - 1]);
      Occupied(s.waiting, queued);
    }
    if l.concurrency >= 1 && l.queueLimit >= 1 {
      OvertakingRuns(l);
    }
  }

  // ---- The gate object

  class Gate {
    const concurrency: nat
    const queueLimit: nat
    var active: int
    var queued: int
    ghost var waiting: set<nat>
    ghost var running: set<nat>

    function Bounds(): Limits { Limits(concurrency, queueLimit) }

    ghost predicate Valid()
      reads this
    {
      active >= 0 && queued >= 0 && Consistent(Bounds(), State(active, queued, waiting, running))
    }

    ghost function Abstract(): State
      reads this
      requires Valid()
    {
      State(active, queued, waiting, running)
    }

    constructor (concurrency: nat, queueLimit: nat)
      ensures Valid() && Abstract() == Start() && Bounds() == Limits(concurrency, queueLimit)
    {
      this.concurrency, this.queueLimit := concurrency, queueLimit;
      active, queued := 0, 0;
      waiting, running := {}, {};
    }

    method Busy() returns (busy: bool)
      requires Valid()
      ensures busy <==> exists id :: Abstract().InFlight(id)
    {
      busy := active > 0 || queued > 0;
      assert busy ==> waiting != {} || running != {};
      if id :| id in waiting {
        assert Abstract().InFlight(id);
      }
      if id :| id in running {
        assert Abstract().InFlight(id);
      }
    }

    /** The part of a call up to its first await. */
    method Enter(ghost id: nat) returns (outcome: Outcome)
      requires Valid() && !Abstract().InFlight(id)
      modifies this
      ensures Valid() && (Abstract(), outcome) == Step(Bounds(), old(Abstract()), Arrive(id))
    {
      ArriveKeeps(Bounds(), Abstract(), id);
      if active >= concurrency {
        if queued >= queueLimit {
          return Rejected;
        }
        queued := queued + 1;
        waiting := waiting + {id};
        return Queued;
      }
      active := active + 1;
      running := running + {id};
      outcome := Admitted;
    }

    /** A queued call after its delay: it looks again, and either waits on or leaves the queue and starts. */
    method Resume(ghost id: nat) returns (outcome: Outcome)
      requires Valid() && id in waiting
      modifies this
      ensures Valid() && (Abstract(), outcome) == Step(Bounds(), old(Abstract()), Wake(id))
    {
      if active >= concurrency {
        return StillWaiting;
      }
      Occupied(waiting, id);
      queued := queued - 1;
      waiting := waiting - {id};
      active := active + 1;
      running := running + {id};
      outcome := Admitted;
    }

    /** A call whose operation has settled: the slot is given back, and the caller gets the result or the error. */
    method Leave<T, E>(ghost id: nat, settled: Result<T, E>) returns (r: Result<T, E>)
      requires Valid() && id in running
      modifies this
      ensures Valid() && r == settled
      ensures (Abstract(), if r.Err? then Threw else Returned) == Step(Bounds(), old(Abstract()), Settle(id, settled.Err?))
    {
      Occupied(running, id);
      match settled {
        case Ok(value) =>
          active := active - 1;
          running := running - {id};
          return Ok(value);
        case Err(error) =>
          active := active - 1;
          running := running - {id};
          return Err(error);
      }
    }
  }
}
