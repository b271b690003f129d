/**
 The kernel's message queue: messages in order of arrival, each with a priority.
 mq_receive takes the oldest of the highest priority.
 */
module MqQueue {
  datatype Msg = Msg(prio: nat, data: seq<char>)

  function Keep(m: Msg, prio: nat): seq<Msg> {
    if m.prio == prio then [m] else []
  }

  /** The messages of one priority, in order. */
  function Of(q: seq<Msg>, prio: nat): seq<Msg> {
    if q == [] then [] else Keep(q[0], prio) + Of(q[1..], prio)
  }

  /** What mq_receive takes. */
  function Front(q: seq<Msg>): (i: nat)
    requires q != []
    ensures i < |q|
    ensures forall k :: 0 <= k < |q| ==> q[k].prio <= q[i].prio
    ensures forall k :: 0 <= k < i ==> q[k].prio < q[i].prio
  {
    if |q| == 1 then 0
    else
      var j := Front(q[1..]);
      assert forall k :: 1 <= k < |q| ==> q[k] == q[1..][k - 1];
      if q[0].prio >= q[j + 1].prio then 0 else j + 1
  }

  function Without(q: seq<Msg>, i: nat): seq<Msg>
    requires i < |q|
  {
    q[..i] + q[i + 1..]
  }

  lemma {:induction false} Assoc(a: seq<Msg>, b: seq<Msg>, c: seq<Msg>)
    ensures (a + b) + c == a + (b + c)
  {
  }

  lemma {:induction false} OfConcat(a: seq<Msg>, b: seq<Msg>, prio: nat)
    ensures Of(a + b, prio) == Of(a, prio) + Of(b, prio)
    decreases |a|
  {
    if a == [] {
      assert a + b == b;
    } else {
      assert (a + b)[1..] == a[1..] + b;
      OfConcat(a[1..], b, prio);
      Assoc(Keep(a[0], prio), Of(a[1..], prio), Of(b, prio));
    }
  }

  lemma {:induction false} NoneOf(q: seq<Msg>, prio: nat)
    requires forall k :: 0 <= k < |q| ==> q[k].prio != prio
    ensures Of(q, prio) == []
    decreases |q|
  {
    if q != [] {
      NoneOf(q[1..], prio);
    }
  }

  lemma {:induction false} OfSplit(q: seq<Msg>, i: nat, prio: nat)
    requires i < |q|
    ensures Of(q, prio) == Of(q[..i], prio) + (Of([q[i]], prio) + Of(q[i + 1..], prio))
    ensures Of(Without(q, i), prio) == Of(q[..i], prio) + Of(q[i + 1..], prio)
  {
    assert q == q[..i] + ([q[i]] + q[i + 1..]);
    OfConcat(q[..i], [q[i]] + q[i + 1..], prio);
    OfConcat([q[i]], q[i + 1..], prio);
    OfConcat(q[..i], q[i + 1..], prio);
  }

  lemma {:induction false} MoveFirst(a: seq<Msg>, b: seq<Msg>, c: seq<Msg>)
    requires a == [] || b == []
    ensures a + (b + c) == b + (a + c)
  {
  }

  /** Receiving takes the oldest message of its priority, and leaves the other priorities alone. */
  lemma {:induction false} ReceiveInOrder(q: seq<Msg>, prio: nat)
    requires q != []
    ensures Of(q, prio) == Of([q[Front(q)]], prio) + Of(Without(q, Front(q)), prio)
  {
    var i := Front(q);
    OfSplit(q, i, prio);
    if q[i].prio == prio {
      NoneOf(q[..i], prio);
    } else {
      NoneOf([q[i]], prio);
    }
    MoveFirst(Of(q[..i], prio), Of([q[i]], prio), Of(q[i + 1..], prio));
  }

  /** Nothing is lost, repeated or overtaken within its priority: what was sent is what was
      received followed by what is queued. */
  ghost predicate Conserved(sent: seq<Msg>, received: seq<Msg>, queue: seq<Msg>) {
    && (forall p :: Of(sent, p) == Of(received, p) + Of(queue, p))
    && multiset(sent) == multiset(received) + multiset(queue)
  }

  lemma {:induction false} SendConserves(sent: seq<Msg>, received: seq<Msg>, queue: seq<Msg>, m: Msg)
    requires Conserved(sent, received, queue)
    ensures Conserved(sent + [m], received, queue + [m])
  {
    forall p
      ensures Of(sent + [m], p) == Of(received, p) + Of(queue + [m], p)
    {
      OfConcat(sent, [m], p);
      OfConcat(queue, [m], p);
      assert Of(sent, p) == Of(received, p) + Of(queue, p);
      Assoc(Of(received, p), Of(queue, p), Of([m], p));
    }
  }

  lemma {:induction false} ReceiveOne(sent: seq<Msg>, received: seq<Msg>, queue: seq<Msg>, prio: nat)
    requires queue != [] && Of(sent, prio) == Of(received, prio) + Of(queue, prio)
    ensures Of(sent, prio) == Of(received + [queue[Front(queue)]], prio) + Of(Without(queue, Front(queue)), prio)
  {
    var m, rest := queue[Front(queue)], Without(queue, Front(queue));
    ReceiveInOrder(queue, prio);
    OfConcat(received, [m], prio);
    Assoc(Of(received, prio), Of([m], prio), Of(rest, prio));
  }

  lemma {:induction false} WithoutCounts(q: seq<Msg>, i: nat)
    requires i < |q|
    ensures multiset(q) == multiset{q[i]} + multiset(Without(q, i))
  {
    assert q == q[..i] + [q[i]] + q[i + 1..];
  }

  lemma {:induction false} ReceiveConserves(sent: seq<Msg>, received: seq<Msg>, queue: seq<Msg>)
    requires Conserved(sent, received, queue) && queue != []
    ensures Conserved(sent, received + [queue[Front(queue)]], Without(queue, Front(queue)))
  {
    var i := Front(queue);
    forall p
      ensures Of(sent, p) == Of(received + [queue[i]], p) + Of(Without(queue, i), p)
    {
      ReceiveOne(sent, received, queue, p);
    }
    WithoutCounts(queue, i);
  }
}
