/** The start handshake of the video wrapper's Start (pkg/driver/wrapper.go).
    Start spawns one goroutine that calls the adapter's Start with a callback
    and then sends the adapter's return value on a channel of capacity 2; the
    callback sends one nil on the same channel for the first frame only and
    hands every frame to the user callback. The caller blocks on one receive.

    Concurrency is modelled by an ordered trace of what the adapter does: a
    frame callback or the return of its Start. The goroutine's reaction to a
    trace is a sequence of actions: sends on the channel and deliveries to the
    user callback. */
module Handshake {
  import opened Types

  type Bytes = seq<bv8>

  /** What the adapter does while its Start runs. */
  datatype Event<+E> = Frame(data: Bytes) | Return(out: Outcome<E>)

  /** A signal on the channel: the nil of the first frame, or the adapter's
      own return value. */
  datatype Signal<+E> = FirstFrame | Terminal(out: Outcome<E>)

  /** What the goroutine and the callback do: send on the channel, or hand a
      frame to the user callback. */
  datatype Action<+E> = Send(signal: Signal<E>) | Deliver(data: Bytes)

  /** The buffer size given to the signal channel. */
  const Capacity: nat := 2

  /** A buffered channel; a send blocks when the buffer is full. */
  datatype Channel<T> = Channel(buffer: seq<T>)

  predicate HasRoom<T>(c: Channel<T>) {
    |c.buffer| < Capacity
  }

  /** A send that does not block: only possible while there is room. */
  function Enqueue<T>(c: Channel<T>, v: T): Channel<T>
    requires HasRoom(c)
  {
    Channel(c.buffer + [v])
  }

  /** The value a signal puts on the channel. */
  function Value<E>(s: Signal<E>): Outcome<E> {
    match s
    case FirstFrame => Success
    case Terminal(o) => o
  }

  /** The reaction to one adapter event, given the callback's `first` flag:
      a frame sends nil if it is the first and is then handed to the user
      callback; a return sends the adapter's value. */
  function Reaction<E>(e: Event<E>, first: bool): (r: seq<Action<E>>)
    ensures Sends(r) == Fired(e, first)
    ensures Delivered(r) == Delivery(e)
    ensures e.Frame? && first ==> |r| == 2 && r[0] == Send(FirstFrame) && r[1] == Deliver(e.data)
  {
    match e
    case Frame(b) =>
      if first then
        var r := [Send(FirstFrame), Deliver(b)];
        assert r[1..] == [Deliver(b)] && r[1..][1..] == [];
        assert Sends(r[1..]) == [] && Delivered(r[1..]) == [b];
        assert Sends(r) == [FirstFrame] + Sends(r[1..]);
        assert Delivered(r) == [] + Delivered(r[1..]);
        r
      else
        var r := [Deliver(b)];
        assert r[1..] == [];
        r
    case Return(o) =>
      var r := [Send(Terminal(o))];
      assert r[1..] == [];
      r
  }

  /** The flag after an event: any frame clears it. */
  function After<E>(e: Event<E>, first: bool): bool {
    first && !e.Frame?
  }

  /** All actions for trace `t`, starting from flag `first`. The sends are the
      trace's reference signals and the deliveries are all its frames. */
  function Run<E>(t: seq<Event<E>>, first: bool): (r: seq<Action<E>>)
    ensures Sends(r) == Signals(t, first)
    ensures Delivered(r) == Frames(t)
  {
    if t == [] then []
    else
      var now, later := Reaction(t[0], first), Run(t[1..], After(t[0], first));
      SendsAppend(now, later);
      DeliveredAppend(now, later);
      now + later
  }

  /** The handshake as Start runs it: the flag starts out true. */
  function StartHandshake<E>(t: seq<Event<E>>): seq<Action<E>> {
    Run(t, true)
  }

  // ----- views of a run of actions -----

  /** The signals sent, in order. */
  function Sends<E>(acts: seq<Action<E>>): seq<Signal<E>> {
    if acts == [] then []
    else (if acts[0].Send? then [acts[0].signal] else []) + Sends(acts[1..])
  }

  /** The frames handed to the user callback, in order. */
  function Delivered<E>(acts: seq<Action<E>>): seq<Bytes> {
    if acts == [] then []
    else (if acts[0].Deliver? then [acts[0].data] else []) + Delivered(acts[1..])
  }

  function Values<E>(sigs: seq<Signal<E>>): seq<Outcome<E>> {
    if sigs == [] then [] else [Value(sigs[0])] + Values(sigs[1..])
  }

  /** The value the caller's single receive obtains: the first value sent,
      or None when nothing is ever sent and the caller waits forever. */
  function FirstReceived<E>(t: seq<Event<E>>): Option<Outcome<E>> {
    var sigs := Sends(StartHandshake(t));
    if sigs == [] then None else Some(Value(sigs[0]))
  }

  // ----- reference definitions over traces -----

  /** The signals one event causes. */
  function Fired<E>(e: Event<E>, first: bool): seq<Signal<E>> {
    match e
    case Frame(_) => if first then [FirstFrame] else []
    case Return(o) => [Terminal(o)]
  }

  /** The signals of a trace, event by event. */
  function Signals<E>(t: seq<Event<E>>, first: bool): seq<Signal<E>> {
    if t == [] then [] else Fired(t[0], first) + Signals(t[1..], After(t[0], first))
  }

  /** The frames one event carries. */
  function Delivery<E>(e: Event<E>): seq<Bytes> {
    if e.Frame? then [e.data] else []
  }

  /** The frames of a trace, in order. */
  function Frames<E>(t: seq<Event<E>>): seq<Bytes> {
    if t == [] then [] else Delivery(t[0]) + Frames(t[1..])
  }

  /** How many times the adapter's Start returns in a trace. */
  function Returns<E>(t: seq<Event<E>>): nat {
    if t == [] then 0 else (if t[0].Return? then 1 else 0) + Returns(t[1..])
  }

  /** How many nil first-frame signals a sequence of signals holds. */
  function CountFirst<E>(sigs: seq<Signal<E>>): nat {
    if sigs == [] then 0 else (if sigs[0].FirstFrame? then 1 else 0) + CountFirst(sigs[1..])
  }

  predicate HasFrame<E>(t: seq<Event<E>>) {
    exists i :: 0 <= i < |t| && t[i].Frame?
  }

  /** A trace a Go call can produce: the adapter's Start returns at most once. */
  predicate WellFormed<E>(t: seq<Event<E>>) {
    Returns(t) <= 1
  }

  // ----- helper facts -----

  lemma {:induction false} SendsAppend<E>(a: seq<Action<E>>, b: seq<Action<E>>)
    ensures Sends(a + b) == Sends(a) + Sends(b)
  {
    if a != [] {
      assert (a + b)[1..] == a[1..] + b;
      SendsAppend(a[1..], b);
    } else {
      assert a + b == b;
    }
  }

  lemma {:induction false} DeliveredAppend<E>(a: seq<Action<E>>, b: seq<Action<E>>)
    ensures Delivered(a + b) == Delivered(a) + Delivered(b)
  {
    if a != [] {
      assert (a + b)[1..] == a[1..] + b;
      DeliveredAppend(a[1..], b);
    } else {
      assert a + b == b;
    }
  }

  lemma {:induction false} CountFirstAppend<E>(a: seq<Signal<E>>, b: seq<Signal<E>>)
    ensures CountFirst(a + b) == CountFirst(a) + CountFirst(b)
  {
    if a != [] {
      assert (a + b)[1..] == a[1..] + b;
      CountFirstAppend(a[1..], b);
    } else {
      assert a + b == b;
    }
  }

  lemma {:induction false} ValuesAppend<E>(a: seq<Signal<E>>, b: seq<Signal<E>>)
    ensures Values(a + b) == Values(a) + Values(b)
  {
    if a != [] {
      assert (a + b)[1..] == a[1..] + b;
      ValuesAppend(a[1..], b);
    } else {
      assert a + b == b;
    }
  }

  lemma {:induction false} ValuesLength<E>(a: seq<Signal<E>>)
    ensures |Values(a)| == |a|
  {
    if a != [] {
      ValuesLength(a[1..]);
    }
  }

  lemma HasFrameCons<E>(t: seq<Event<E>>)
    requires t != []
    ensures HasFrame(t) <==> t[0].Frame? || HasFrame(t[1..])
  {
    if HasFrame(t[1..]) {
      var i :| 0 <= i < |t[1..]| && t[1..][i].Frame?;
      assert t[i + 1].Frame?;
    }
    if HasFrame(t) && !t[0].Frame? {
      var i :| 0 <= i < |t| && t[i].Frame?;
      assert t[1..][i - 1].Frame?;
    }
  }

  // ----- properties of the handshake -----

  /** The `first` flag lets the nil success signal out at most once however
      many frames arrive: exactly once when the flag is set and a frame
      arrives, never once it has been cleared. */
  lemma {:induction false} SuccessSignalAtMostOnce<E>(t: seq<Event<E>>, first: bool)
    ensures CountFirst(Sends(Run(t, first))) == (if first && HasFrame(t) then 1 else 0)
  {
    FirstCount(t, first);
  }

  lemma {:induction false} FirstCount<E>(t: seq<Event<E>>, first: bool)
    ensures CountFirst(Signals(t, first)) == (if first && HasFrame(t) then 1 else 0)
  {
    if t != [] {
      HasFrameCons(t);
      CountFirstAppend(Fired(t[0], first), Signals(t[1..], After(t[0], first)));
      FirstCount(t[1..], After(t[0], first));
    }
  }

  /** Every signal is either the single first-frame nil or a return of the
      adapter's Start. */
  lemma {:induction false} SignalCount<E>(t: seq<Event<E>>, first: bool)
    ensures |Signals(t, first)| == (if first && HasFrame(t) then 1 else 0) + Returns(t)
  {
    if t != [] {
      HasFrameCons(t);
      SignalCount(t[1..], After(t[0], first));
    }
  }

  /** At most two signals are ever sent, which is the channel's capacity. */
  lemma AtMostTwoSignals<E>(t: seq<Event<E>>)
    requires WellFormed(t)
    ensures |Sends(StartHandshake(t))| <= Capacity
    ensures |Signals(t, true)| <= Capacity
  {
    SignalCount(t, true);
  }

  /** The caller's receive is decided by the adapter's first event alone:
      nil for a frame, the adapter's return value for a return, and no
      signal at all for an adapter that does neither. */
  lemma FirstReceivedIsFirstEvent<E>(t: seq<Event<E>>)
    ensures t == [] ==> FirstReceived(t) == None
    ensures t != [] && t[0].Frame? ==> FirstReceived(t) == Some(Success)
    ensures t != [] && t[0].Return? ==> FirstReceived(t) == Some(t[0].out)
  {
  }

  /** For a first frame, the nil is sent before that frame is handed to the
      user callback, so the caller can be released before the callback runs. */
  lemma ReleaseBeforeCallback<E>(t: seq<Event<E>>)
    requires t != [] && t[0].Frame?
    ensures |StartHandshake(t)| >= 2
    ensures StartHandshake(t)[0] == Send(FirstFrame) && StartHandshake(t)[1] == Deliver(t[0].data)
  {
  }

  /** How the goroutine and the callback react to one adapter event. Both
      sends go through Enqueue and so need room in the buffer. */
  method OnEvent<E>(ch: Channel<Outcome<E>>, first: bool, delivered: seq<Bytes>, e: Event<E>)
      returns (ch': Channel<Outcome<E>>, first': bool, delivered': seq<Bytes>)
    requires |ch.buffer| + |Fired(e, first)| <= Capacity
    ensures ch'.buffer == ch.buffer + Values(Fired(e, first))
    ensures first' == After(e, first)
    ensures delivered' == delivered + Delivery(e)
  {
    ch', first', delivered' := ch, first, delivered;
    match e
    case Frame(b) =>
      if first {
        ch' := Enqueue(ch', Success);
        first' := false;
      }
      delivered' := delivered' + [b];
    case Return(o) =>
      ch' := Enqueue(ch', o);
  }

  /** One event further into the trace: the reference views split off the
      contribution of event `i`. */
  lemma Advance<E>(t: seq<Event<E>>, i: nat, first: bool, sent: seq<Signal<E>>, delivered: seq<Bytes>)
    requires i < |t|
    requires Frames(t) == delivered + Frames(t[i..])
    requires Signals(t, true) == sent + Signals(t[i..], first)
    ensures Frames(t) == (delivered + Delivery(t[i])) + Frames(t[i + 1..])
    ensures Signals(t, true) == (sent + Fired(t[i], first)) + Signals(t[i + 1..], After(t[i], first))
  {
  }

  /** The goroutine and callback run over a whole trace with nobody receiving
      (the worst case for the channel). Every send goes through Enqueue, which
      needs room in the buffer, so no sender ever blocks. */
  method Goroutine<E>(t: seq<Event<E>>) returns (ch: Channel<Outcome<E>>, delivered: seq<Bytes>)
    requires WellFormed(t)
    ensures ch.buffer == Values(Signals(t, true))
    ensures |ch.buffer| <= Capacity
    ensures delivered == Frames(t)
    ensures t != [] <==> |ch.buffer| > 0
    ensures t != [] ==> ch.buffer[0] == (if t[0].Frame? then Success else t[0].out)
  {
    ch := Channel([]);
    delivered := [];
    var i := 0;
    var first := true;
    ghost var sent: seq<Signal<E>> := [];
    AtMostTwoSignals(t);
    assert t[i..] == t;
    while i < |t|
      invariant 0 <= i <= |t|
      invariant Frames(t) == delivered + Frames(t[i..])
      invariant Signals(t, true) == sent + Signals(t[i..], first)
      invariant |Signals(t, true)| <= Capacity
      invariant ch.buffer == Values(sent)
    {
      ghost var fired := Fired(t[i], first);
      Advance(t, i, first, sent, delivered);
      ValuesAppend(sent, fired);
      ValuesLength(sent);
      ch, first, delivered := OnEvent(ch, first, delivered, t[i]);
      sent := sent + fired;
      i := i + 1;
    }
    assert delivered + [] == delivered;
    assert sent + [] == sent;
    FirstReceivedIsFirstEvent(t);
    ValuesLength(sent);
  }
}
