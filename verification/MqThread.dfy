/**
 mq_notify_via_thread: every notification starts a thread, and every thread (main too)
 registers again and then drains the queue. Any number of threads run at once, and other
 processes send at any time. The steps are the system calls.
 */
module MqThread {
  import opened MqQueue

  // Where an agent (main or a notification thread) is: before mq_notify, in the receive
  // loop, or returned from drainQueue.
  datatype Pc = Setup | Draining | Done

  datatype State = State(
    queue: seq<Msg>,
    registered: bool,
    agents: seq<Pc>,
    sent: seq<Msg>,      // with what was queued before the program started
    received: seq<Msg>,
    failed: bool         // some mq_notify found a registration in place (EBUSY), and errExit ran
  )

  function Start(queued: seq<Msg>): State {
    State(queued, false, [Setup], queued, [], false)
  }

  datatype Event =
    | Send(m: Msg)
    | Notify(i: nat)   // notifySetup
    | Receive(i: nat)  // mq_receive returns a message
    | Again(i: nat)    // mq_receive fails with EAGAIN

  predicate Enabled(s: State, e: Event) {
    !s.failed &&
    match e
    case Send(_) => true
    case Notify(i) => i < |s.agents| && s.agents[i] == Setup
    case Receive(i) => i < |s.agents| && s.agents[i] == Draining && s.queue != []
    case Again(i) => i < |s.agents| && s.agents[i] == Draining && s.queue == []
  }

  function Step(s: State, e: Event): State
    requires Enabled(s, e)
  {
    match e
    case Send(m) =>
      var fires := s.registered && s.queue == [];
      s.(queue := s.queue + [m], sent := s.sent + [m],
         registered := s.registered && !fires,
         agents := if fires then s.agents + [Setup] else s.agents)
    case Notify(i) =>
      if s.registered then s.(failed := true)
      else s.(registered := true, agents := s.agents[i := Draining])
    case Receive(i) =>
      s.(queue := Without(s.queue, Front(s.queue)), received := s.received + [s.queue[Front(s.queue)]])
    case Again(i) =>
      s.(agents := s.agents[i := Done])
  }

  predicate CanRun(s: State, es: seq<Event>)
    decreases |es|
  {
    es == [] || (Enabled(s, es[0]) && CanRun(Step(s, es[0]), es[1..]))
  }

  function Run(s: State, es: seq<Event>): State
    requires CanRun(s, es)
    decreases |es|
  {
    if es == [] then s else Run(Step(s, es[0]), es[1..])
  }

  function Count(agents: seq<Pc>, pc: Pc): nat {
    if agents == [] then 0 else (if agents[0] == pc then 1 else 0) + Count(agents[1..], pc)
  }

  /** One registration, or one agent that is about to make it; and a message is never without
      an agent that will look for it. */
  ghost predicate Attended(s: State) {
    && !s.failed
    && (if s.registered then 1 else 0) + Count(s.agents, Setup) == 1
    && (s.queue != [] ==> exists i :: 0 <= i < |s.agents| && s.agents[i] != Done)
    && Conserved(s.sent, s.received, s.queue)
  }

  lemma {:induction false} CountAppend(agents: seq<Pc>, a: Pc, pc: Pc)
    ensures Count(agents + [a], pc) == Count(agents, pc) + if a == pc then 1 else 0
    decreases |agents|
  {
    if agents != [] {
      assert (agents + [a])[1..] == agents[1..] + [a];
      CountAppend(agents[1..], a, pc);
    }
  }

  lemma {:induction false} CountUpdate(agents: seq<Pc>, i: nat, a: Pc, pc: Pc)
    requires i < |agents|
    ensures Count(agents[i := a], pc) ==
            Count(agents, pc) - (if agents[i] == pc then 1 else 0) + if a == pc then 1 else 0
    decreases |agents|
  {
    if i > 0 {
      assert agents[i := a][1..] == agents[1..][i - 1 := a];
      CountUpdate(agents[1..], i - 1, a, pc);
    } else {
      assert agents[0 := a][1..] == agents[1..];
    }
  }

  lemma {:induction false} CountedSomewhere(agents: seq<Pc>, pc: Pc)
    ensures Count(agents, pc) > 0 <==> exists i :: 0 <= i < |agents| && agents[i] == pc
    decreases |agents|
  {
    if agents != [] {
      CountedSomewhere(agents[1..], pc);
      if i :| 0 <= i < |agents[1..]| && agents[1..][i] == pc {
        assert agents[i + 1] == pc;
      }
      if i :| 0 <= i < |agents| && agents[i] == pc && i > 0 {
        assert agents[1..][i - 1] == pc;
      }
    }
  }

  /** A message to an empty queue uses a registration up and starts exactly one agent; any other
      message does neither. */
  lemma {:induction false} SendKeeps(s: State, m: Msg)
    requires Attended(s)
    ensures var s', fires := Step(s, Send(m)), s.registered && s.queue == [];
            && Attended(s')
            && Count(s'.agents, Setup) == Count(s.agents, Setup) + (if fires then 1 else 0)
            && |s'.agents| == |s.agents| + (if fires then 1 else 0) && s.agents <= s'.agents
            && s'.registered == (s.registered && !fires)
  {
    var s' := Step(s, Send(m));
    SendConserves(s.sent, s.received, s.queue, m);
    CountAppend(s.agents, Setup, Setup);
    if s.queue != [] {
      var i :| 0 <= i < |s.agents| && s.agents[i] != Done;
      assert s'.agents[i] != Done;
    } else if s.registered {
      assert s'.agents[|s.agents|] != Done;
    } else {
      CountedSomewhere(s.agents, Setup);
      var i :| 0 <= i < |s.agents| && s.agents[i] == Setup;
      assert s'.agents[i] != Done;
    }
  }

  lemma {:induction false} NotifyKeeps(s: State, i: nat)
    requires Attended(s) && Enabled(s, Notify(i))
    ensures Attended(Step(s, Notify(i))) && !s.registered
  {
    CountedSomewhere(s.agents, Setup);
    CountUpdate(s.agents, i, Draining, Setup);
    assert Step(s, Notify(i)).agents[i] == Draining;
  }

  lemma {:induction false} AgainKeeps(s: State, i: nat)
    requires Attended(s) && Enabled(s, Again(i))
    ensures Attended(Step(s, Again(i)))
  {
    CountUpdate(s.agents, i, Done, Setup);
  }

  lemma {:induction false} StepKeeps(s: State, e: Event)
    requires Attended(s) && Enabled(s, e)
    ensures Attended(Step(s, e))
  {
    match e
    case Send(m) => SendKeeps(s, m);
    case Notify(i) => NotifyKeeps(s, i);
    case Receive(i) =>
      ReceiveConserves(s.sent, s.received, s.queue);
      assert Step(s, e).agents[i] != Done;
    case Again(i) => AgainKeeps(s, i);
  }

  lemma {:induction false} RunKeeps(s: State, es: seq<Event>)
    requires Attended(s) && CanRun(s, es)
    ensures Attended(Run(s, es))
    decreases |es|
  {
    if es != [] {
      StepKeeps(s, es[0]);
      RunKeeps(Step(s, es[0]), es[1..]);
    }
  }

  lemma {:induction false} StartAttended(queued: seq<Msg>)
    ensures Attended(Start(queued))
  {
    assert Start(queued).agents[0] == Setup;
    forall p
      ensures Of(queued, p) == Of([], p) + Of(queued, p)
    {
      assert [] + Of(queued, p) == Of(queued, p);
    }
  }

  /** In every reachable state, whatever was queued at the start and however the steps interleave. */
  lemma {:induction false} AlwaysAttended(queued: seq<Msg>, es: seq<Event>)
    requires CanRun(Start(queued), es)
    ensures Attended(Run(Start(queued), es))
  {
    StartAttended(queued);
    RunKeeps(Start(queued), es);
  }

  /** No agent can take a step: all are done or there is nothing to do. */
  ghost predicate Idle(s: State) {
    forall e {:trigger Enabled(s, e)} :: Enabled(s, e) ==> e.Send?
  }

  /** When the program has nothing left to do, it has every message, and it will be told of the next. */
  lemma {:induction false} NothingStranded(queued: seq<Msg>, es: seq<Event>)
    requires CanRun(Start(queued), es) && Idle(Run(Start(queued), es))
    ensures var s := Run(Start(queued), es);
            && s.queue == [] && s.registered
            && (forall i :: 0 <= i < |s.agents| ==> s.agents[i] == Done)
            && (forall p :: Of(s.received, p) == Of(s.sent, p)) && multiset(s.received) == multiset(s.sent)
  {
    var s := Run(Start(queued), es);
    AlwaysAttended(queued, es);
    forall i | 0 <= i < |s.agents|
      ensures s.agents[i] == Done
    {
      assert !Enabled(s, Notify(i)) && !Enabled(s, Receive(i)) && !Enabled(s, Again(i));
    }
    CountedSomewhere(s.agents, Setup);
    forall p
      ensures Of(s.received, p) == Of(s.sent, p)
    {
      assert Of(s.sent, p) == Of(s.received, p) + Of(s.queue, p);
      assert Of(s.received, p) + [] == Of(s.received, p);
    }
  }

  // ----- progress

  function Work(s: State): nat {
    2 * Count(s.agents, Setup) + Count(s.agents, Draining) + |s.queue|
  }

  function Sends(es: seq<Event>): nat {
    if es == [] then 0 else (if es[0].Send? then 1 else 0) + Sends(es[1..])
  }

  lemma {:induction false} StepWorks(s: State, e: Event)
    requires Attended(s) && Enabled(s, e)
    ensures e.Send? ==> Work(Step(s, e)) <= Work(s) + 3
    ensures !e.Send? ==> Work(Step(s, e)) == Work(s) - 1
  {
    match e
    case Send(m) =>
      CountAppend(s.agents, Setup, Setup);
      CountAppend(s.agents, Setup, Draining);
    case Notify(i) =>
      NotifyKeeps(s, i);
      CountUpdate(s.agents, i, Draining, Setup);
      CountUpdate(s.agents, i, Draining, Draining);
    case Receive(i) =>
    case Again(i) =>
      CountUpdate(s.agents, i, Done, Setup);
      CountUpdate(s.agents, i, Done, Draining);
  }

  lemma {:induction false} RunWorks(s: State, es: seq<Event>)
    requires Attended(s) && CanRun(s, es)
    ensures |es| - Sends(es) + Work(Run(s, es)) <= Work(s) + 3 * Sends(es)
    decreases |es|
  {
    if es != [] {
      StepWorks(s, es[0]);
      StepKeeps(s, es[0]);
      RunWorks(Step(s, es[0]), es[1..]);
    }
  }

  /** The agents together take a bounded number of steps for what was queued and what is sent,
      however they interleave, so that without further sends they come to rest. */
  lemma {:induction false} StepsBounded(queued: seq<Msg>, es: seq<Event>)
    requires CanRun(Start(queued), es)
    ensures |es| <= 2 + |queued| + 4 * Sends(es)
  {
    StartAttended(queued);
    RunWorks(Start(queued), es);
    assert Start(queued).agents[1..] == [];
  }
}
