/**
 mq_notify_via_signal: notifications are signals, the handler sets gotSig, and the main
 loop registers and drains when it finds gotSig set. The handler may run between any two
 steps of the loop, and other processes send at any time.
 */
module MqSignal {
  import opened MqQueue

  // The next thing the loop does: test gotSig, clear it, mq_notify, mq_receive, or return
  // from sleep.
  datatype Pc = Check | Clear | Notify | Drain | Sleep

  datatype State = State(
    queue: seq<Msg>,
    registered: bool,
    pending: bool,  // the notification signal is generated and not yet delivered
    gotSig: bool,
    pc: Pc,
    sent: seq<Msg>,
    received: seq<Msg>,
    failed: bool    // mq_notify found a registration in place
  )

  function Start(queued: seq<Msg>): State {
    State(queued, false, false, true, Check, queued, [], false)
  }

  datatype Event = Send(m: Msg) | Handler | Loop

  predicate Enabled(s: State, e: Event) {
    !s.failed && (e.Handler? ==> s.pending)
  }

  /** One step of main's loop. */
  function LoopStep(s: State): State {
    match s.pc
    case Check => s.(pc := if s.gotSig then Clear else Sleep)
    case Clear => s.(gotSig := false, pc := Notify)
    case Notify => if s.registered then s.(failed := true) else s.(registered := true, pc := Drain)
    case Drain =>
      if s.queue == [] then s.(pc := Sleep)  // EAGAIN
      else s.(queue := Without(s.queue, Front(s.queue)), received := s.received + [s.queue[Front(s.queue)]])
    case Sleep => s.(pc := Check)
  }

  function Step(s: State, e: Event): State
    requires Enabled(s, e)
  {
    match e
    case Send(m) =>
      var fires := s.registered && s.queue == [];
      s.(queue := s.queue + [m], sent := s.sent + [m],
         registered := s.registered && !fires, pending := s.pending || fires)
    case Handler => s.(pending := false, gotSig := true)
    case Loop => LoopStep(s)
  }

  predicate CanRun(s: State, es: seq<Event>)
    decreases |es|
  {
    es == [] || (Enabled(s, es[0]) && CanRun(Step(s, es[0]), es[1..]))
  }

  function Run(s: State, es: seq<Event>): State
    requires CanRun(s, es)
    decreases |es|
  {
    if es == [] then s else Run(Step(s, es[0]), es[1..])
  }

  function One(b: bool): nat {
    if b then 1 else 0
  }

  /** Exactly one of registered, pending and gotSig holds, except between clearing gotSig and
      mq_notify, where none does; and outside that window and the drain, a queued message means
      that the loop will be told, or has been. */
  ghost predicate Watched(s: State) {
    && !s.failed
    && One(s.registered) + One(s.pending) + One(s.gotSig) == One(s.pc != Notify)
    && (s.pc == Clear ==> s.gotSig)
    && (s.queue != [] && s.pc != Notify && s.pc != Drain ==> s.pending || s.gotSig)
    && Conserved(s.sent, s.received, s.queue)
  }

  lemma {:induction false} StepKeeps(s: State, e: Event)
    requires Watched(s) && Enabled(s, e)
    ensures Watched(Step(s, e))
  {
    if e.Send? {
      SendConserves(s.sent, s.received, s.queue, e.m);
    } else if e.Loop? && s.pc == Drain && s.queue != [] {
      ReceiveConserves(s.sent, s.received, s.queue);
    }
  }

  lemma {:induction false} RunKeeps(s: State, es: seq<Event>)
    requires Watched(s) && CanRun(s, es)
    ensures Watched(Run(s, es))
    decreases |es|
  {
    if es != [] {
      StepKeeps(s, es[0]);
      RunKeeps(Step(s, es[0]), es[1..]);
    }
  }

  /** In every reachable state; in particular mq_notify never fails, and no signal arrives while
      gotSig is being cleared, so that none is lost. */
  lemma {:induction false} AlwaysWatched(queued: seq<Msg>, es: seq<Event>)
    requires CanRun(Start(queued), es)
    ensures Watched(Run(Start(queued), es))
  {
    forall p
      ensures Of(queued, p) == Of([], p) + Of(queued, p)
    {
      assert [] + Of(queued, p) == Of(queued, p);
    }
    RunKeeps(Start(queued), es);
  }

  // ----- progress

  /** Loop steps until the queue is empty, once the signal has been delivered. */
  function Distance(s: State): nat {
    if s.queue == [] then 0
    else |s.queue| + match s.pc
                     case Sleep => 4
                     case Check => 3
                     case Clear => 2
                     case Notify => 1
                     case Drain => 0
  }

  predicate NoSends(es: seq<Event>) {
    forall i :: 0 <= i < |es| ==> !es[i].Send?
  }

  lemma {:induction false} Empties(s: State, es: seq<Event>)
    requires Watched(s) && CanRun(s, es) && !s.pending && NoSends(es)
    ensures es == [] || es[0].Loop?
    ensures Distance(Run(s, es)) == if Distance(s) > |es| then Distance(s) - |es| else 0
    decreases |es|
  {
    if es != [] {
      assert es[0].Loop?;
      StepKeeps(s, Loop);
      Empties(Step(s, Loop), es[1..]);
    }
  }

  /** No wake-up is missed: whatever has happened before, once no signal is pending and nobody
      sends, |queue| + 4 steps of the loop are enough to receive everything that was ever sent. */
  lemma {:induction false} NoMissedWakeUp(queued: seq<Msg>, es: seq<Event>, more: seq<Event>)
    requires CanRun(Start(queued), es) && CanRun(Run(Start(queued), es), more) && NoSends(more)
    requires var s := Run(Start(queued), es); !s.pending && |more| >= |s.queue| + 4
    ensures var t := Run(Run(Start(queued), es), more);
            t.queue == [] && multiset(t.received) == multiset(t.sent) && forall p :: Of(t.received, p) == Of(t.sent, p)
  {
    var s := Run(Start(queued), es);
    AlwaysWatched(queued, es);
    Empties(s, more);
    RunKeeps(s, more);
    var t := Run(s, more);
    forall p
      ensures Of(t.received, p) == Of(t.sent, p)
    {
      assert Of(t.sent, p) == Of(t.received, p) + Of(t.queue, p);
      assert Of(t.received, p) + [] == Of(t.received, p);
    }
  }
}
