/** The notification queue of the chain client (chain/rpc.go): a select loop that takes
    notifications in, hands them on one by one, and answers with the block it believes best. */
module NotificationQueue {
  import opened Wrappers

  datatype Block = Block(height: int, hash: nat)

  datatype Notification = Connected(block: Block) | Disconnected(block: Block) | ClientConnected

  /** The loop's variables. `sending` says that the dequeue channel is not nil, `open` that the
      enqueue channel is not. `next` keeps its last value when the queue runs empty. */
  datatype Queue = Queue(
    pending: seq<Notification>,
    next: Option<Notification>,
    sending: bool,
    open: bool,
    best: Block,
    running: bool)

  /** The cases of the select statement. */
  datatype Event = Receive(n: Notification) | Close | Send | Query | Quit

  predicate Enabled(q: Queue, e: Event) {
    q.running
    && (e.Receive? || e.Close? ==> q.open)
    && (e.Send? ==> q.sending && q.next.Some? && q.pending != [])
  }

  function Step(q: Queue, e: Event): Queue
    requires Enabled(q, e)
  {
    match e
    case Receive(n) =>
      if q.pending == [] then q.(next := Some(n), sending := true, pending := [n])
      else q.(pending := q.pending + [n])
    case Close => if q.pending == [] then q.(running := false) else q.(open := false)
    case Send =>
      var best := if q.next.value.Connected? then q.next.value.block else q.best;
      var rest := q.pending[1..];
      if rest != [] then q.(best := best, pending := rest, next := Some(rest[0]))
      else if !q.open then q.(best := best, pending := rest, running := false)
      else q.(best := best, pending := rest, sending := false)
    case Query => q
    case Quit => q.(running := false)
  }

  class Handler {
    var notifications: seq<Notification>
    var next: Option<Notification>
    var dequeue: bool
    var enqueue: bool
    var bs: Block
    var running: bool
    /** What was put on the dequeue channel so far. */
    var delivered: seq<Notification>

    constructor (best: Block)
      ensures State() == Start(best) && delivered == []
    {
      notifications, next, dequeue, enqueue := [], None, false, true;
      bs, running, delivered := best, true, [];
    }

    function State(): Queue
      reads this
    {
      Queue(notifications, next, dequeue, enqueue, bs, running)
    }

    /** One round of the loop, in which the select statement picked e. */
    method Select(e: Event) returns (answer: Block)
      requires Enabled(State(), e)
      modifies this
      ensures State() == Step(old(State()), e)
      ensures delivered == if e.Send? then old(delivered) + [old(next).value] else old(delivered)
      ensures answer == old(bs)
    {
      answer := bs;
      match e {
        case Receive(n) =>
          if notifications == [] {
            next := Some(n);
            dequeue := true;
          }
          notifications := notifications + [n];
        case Close =>
          if notifications == [] {
            running := false;
          } else {
            enqueue := false;
          }
        case Send =>
          delivered := delivered + [next.value];
          if next.value.Connected? {
            bs := next.value.block;
          }
          notifications := notifications[1..];
          if notifications != [] {
            next := Some(notifications[0]);
          } else {
            if !enqueue {
              running := false;
            } else {
              dequeue := false;
            }
          }
        case Query =>
        case Quit =>
          running := false;
      }
    }
  }

  // ----- every interleaving -----

  function Start(best: Block): Queue { Queue([], None, false, true, best, true) }

  /** Sending is possible exactly when something is pending, and then it sends the head. */
  ghost predicate Valid(q: Queue) {
    q.running ==> (q.sending <==> q.pending != []) && (q.sending ==> q.next == Some(q.pending[0]))
                  && (!q.open ==> q.pending != [])
  }

  ghost predicate Possible(q: Queue, events: seq<Event>)
    decreases |events|
  {
    events == [] || (Enabled(q, events[0]) && Possible(Step(q, events[0]), events[1..]))
  }

  ghost function After(q: Queue, events: seq<Event>): Queue
    requires Possible(q, events)
    decreases |events|
  {
    if events == [] then q else After(Step(q, events[0]), events[1..])
  }

  /** What a sequence of events puts on the dequeue channel. */
  ghost function Delivered(q: Queue, events: seq<Event>): seq<Notification>
    requires Possible(q, events)
    decreases |events|
  {
    if events == [] then []
    else (if events[0].Send? then [q.next.value] else []) + Delivered(Step(q, events[0]), events[1..])
  }

  /** What was put in, in order. */
  function Received(events: seq<Event>): seq<Notification> {
    if events == [] then []
    else (if events[0].Receive? then [events[0].n] else []) + Received(events[1..])
  }

  /** The block of the last connected notification among those delivered. */
  function LastConnected(ns: seq<Notification>, initial: Block): Block {
    if ns == [] then initial
    else LastConnected(ns[1..], if ns[0].Connected? then ns[0].block else initial)
  }

  lemma StepKeepsValid(q: Queue, e: Event)
    requires Valid(q) && Enabled(q, e)
    ensures Valid(Step(q, e))
  {
  }

  lemma StepMovesHead(q: Queue, e: Event)
    requires Valid(q) && Enabled(q, e)
    ensures (if e.Send? then [q.next.value] else []) + Step(q, e).pending
            == q.pending + (if e.Receive? then [e.n] else [])
  {
  }

  lemma Regroup<T>(sent: seq<T>, after: seq<T>, d: seq<T>, p: seq<T>, pending: seq<T>, got: seq<T>, r: seq<T>)
    requires sent + after == pending + got && d + p == after + r
    ensures (sent + d) + p == pending + (got + r)
  {
    assert (sent + d) + p == sent + (d + p) == (sent + after) + r;
  }

  lemma {:induction false} StoppedTakesNothing(q: Queue, events: seq<Event>)
    requires Possible(q, events) && !q.running
    ensures events == []
  {
  }

  /** MAIN RESULT. In every interleaving the notifications handed on, followed by those still
      pending, are those that came in, in order; and sending is possible exactly when something
      is pending, with the head as the next. */
  lemma {:induction false} QueueKeepsOrder(q: Queue, events: seq<Event>)
    requires Valid(q) && Possible(q, events)
    ensures Valid(After(q, events))
    ensures Delivered(q, events) + After(q, events).pending == q.pending + Received(events)
    decreases |events|
  {
    if events != [] {
      var e := events[0];
      var q' := Step(q, e);
      StepKeepsValid(q, e);
      StepMovesHead(q, e);
      QueueKeepsOrder(q', events[1..]);
      Regroup(if e.Send? then [q.next.value] else [], q'.pending,
              Delivered(q', events[1..]), After(q', events[1..]).pending,
              q.pending, if e.Receive? then [e.n] else [], Received(events[1..]));
    }
  }

  lemma LastConnectedAfter(n: Notification, ns: seq<Notification>, initial: Block)
    ensures LastConnected([n] + ns, initial) == LastConnected(ns, if n.Connected? then n.block else initial)
  {
    assert ([n] + ns)[1..] == ns;
  }

  /** The block answered is that of the last connected notification handed on, or the first. */
  lemma {:induction false} BestIsLastConnected(q: Queue, events: seq<Event>)
    requires Valid(q) && Possible(q, events)
    ensures After(q, events).best == LastConnected(Delivered(q, events), q.best)
    decreases |events|
  {
    if events != [] {
      StepKeepsValid(q, events[0]);
      BestIsLastConnected(Step(q, events[0]), events[1..]);
      var later := Delivered(Step(q, events[0]), events[1..]);
      if events[0].Send? {
        LastConnectedAfter(q.next.value, later, q.best);
      } else {
        assert [] + later == later;
      }
    }
  }

  /** If the loop ends other than by quitting, nothing is left behind. */
  lemma {:induction false} ClosingDrains(q: Queue, events: seq<Event>)
    requires Valid(q) && q.running && Possible(q, events)
    requires !After(q, events).running && Quit !in events
    ensures After(q, events).pending == []
    decreases |events|
  {
    StepKeepsValid(q, events[0]);
    var q' := Step(q, events[0]);
    if q'.running {
      ClosingDrains(q', events[1..]);
    } else {
      StoppedTakesNothing(q', events[1..]);
    }
  }

  /** From the start of the loop. */
  lemma FreshQueueKeepsOrder(best: Block, events: seq<Event>)
    requires Possible(Start(best), events)
    ensures var q := After(Start(best), events);
            && Delivered(Start(best), events) + q.pending == Received(events)
            && q.best == LastConnected(Delivered(Start(best), events), best)
            && (q.running ==> (q.sending <==> q.pending != []))
            && (!q.running && Quit !in events ==> Delivered(Start(best), events) == Received(events))
  {
    QueueKeepsOrder(Start(best), events);
    BestIsLastConnected(Start(best), events);
    if !After(Start(best), events).running && Quit !in events {
      ClosingDrains(Start(best), events);
      assert Delivered(Start(best), events) + [] == Delivered(Start(best), events);
    }
    assert [] + Received(events) == Received(events);
  }

  // ----- when the loop takes what, and when it ends -----

  /** Notifications are taken until the channel is closed, sent while there are any, and queries
      answered until the loop ends. */
  lemma EnabledExactly(q: Queue, e: Event)
    requires Valid(q)
    ensures Enabled(q, e)
            <==> q.running && match e
                 case Receive(_) => q.open
                 case Close => q.open
                 case Send => q.pending != []
                 case Query => true
                 case Quit => true
  {
  }

  /** The loop ends on quitting, on closing with nothing pending, and on sending the last
      notification after closing; and on nothing else. */
  lemma EndsExactly(q: Queue, e: Event)
    requires Valid(q) && Enabled(q, e)
    ensures !Step(q, e).running <==> e == Quit || (e == Close && q.pending == []) || (e == Send && |q.pending| == 1 && !q.open)
    ensures Step(q, e).open <==> q.open && (e != Close || q.pending == [])
    ensures e == Query ==> Step(q, e) == q
  {
  }
}
