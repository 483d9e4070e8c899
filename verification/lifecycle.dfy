/** The lifecycle state machine a driver wrapper enforces around its adapter
    (pkg/driver/wrapper.go). Open, Start and Stop first check the current
    state; Close always calls the adapter. A call that reaches the adapter
    moves to a new state only if the adapter reports success. */
module Lifecycle {
  import opened Types

  datatype State = Closed | Opened | Started | Stopped

  /** The state-changing lifecycle methods of a driver. */
  datatype Op = Open | Close | Start | Stop

  /** Why a call was refused before the adapter was asked to do anything. */
  datatype Reason = AlreadyOpened | NotOpened | AlreadyStarted | NotStarted

  /** What a lifecycle method returns to its caller. */
  datatype Result<+E> = Ok | InvalidState(reason: Reason) | AdapterErr(err: E)

  /** What a call leaves behind (a state here, a whole wrapper in module
      Driver), what the call returned, and whether the adapter was called. */
  datatype Transition<+S, +E> = Transition(next: S, result: Result<E>, delegated: bool)

  /** The state `wrapAdapter` leaves a new wrapper in. The source relies on the
      zero value of a `State` declared outside this model; that it is Closed is
      an assumption of the model. */
  const InitialState: State := Closed

  /** Reference table: the states from which each operation is attempted. */
  predicate Permits(s: State, op: Op) {
    match op
    case Open => s == Closed
    case Close => true
    case Start => s == Opened || s == Stopped
    case Stop => s == Started
  }

  /** Reference table: the state an attempted operation moves to on success. */
  function Target(op: Op): State {
    match op
    case Open => Opened
    case Close => Closed
    case Start => Started
    case Stop => Stopped
  }

  /** The check each lifecycle method makes before it calls the adapter:
      the reason it refuses, or None when it goes ahead. */
  function Guard(s: State, op: Op): Option<Reason> {
    match op
    case Open => if s != Closed then Some(AlreadyOpened) else None
    case Close => None
    case Start =>
      if s == Closed then Some(NotOpened)
      else if s == Started then Some(AlreadyStarted)
      else None
    case Stop => if s != Started then Some(NotStarted) else None
  }

  /** Calls the adapter: adopt `target` when it reports nil, otherwise stay
      and hand its error back unchanged. */
  function Delegate<E>(s: State, target: State, o: Outcome<E>): Transition<State, E> {
    match o
    case Success => Transition(target, Ok, true)
    case Failure(e) => Transition(s, AdapterErr(e), true)
  }

  /** One lifecycle call from state `s`, the adapter answering `o` if it is
      asked. For Start, `o` is the first signal the start handshake delivers
      (see module Handshake). */
  function Step<E>(s: State, op: Op, o: Outcome<E>): (r: Transition<State, E>)
    // the adapter is consulted exactly on the calls the table permits
    ensures r.delegated <==> Permits(s, op)
    // a refused call changes nothing and reports an invalid state
    ensures !Permits(s, op) ==> r.next == s && r.result.InvalidState?
    // a permitted call moves to the target exactly when the adapter succeeds
    ensures Permits(s, op) && o.Success? ==> r.next == Target(op) && r.result == Ok
    ensures Permits(s, op) && o.Failure? ==> r.next == s && r.result == AdapterErr(o.err)
    // each refusal reason names its cause
    ensures r.result == InvalidState(AlreadyOpened) ==> op == Open && s != Closed
    ensures r.result == InvalidState(NotOpened) ==> op == Start && s == Closed
    ensures r.result == InvalidState(AlreadyStarted) ==> op == Start && s == Started
    ensures r.result == InvalidState(NotStarted) ==> op == Stop && s != Started
  {
    match Guard(s, op)
    case Some(why) => Transition(s, InvalidState(why), false)
    case None => Delegate(s, Target(op), o)
  }

  /** The methods' checks refuse exactly the calls the table does not permit. */
  lemma GuardMatchesTable(s: State, op: Op)
    ensures Guard(s, op).None? <==> Permits(s, op)
  {
  }

  /** The state only ever moves to the target of the operation called, and
      only on a call that reached the adapter and succeeded. */
  lemma StateMovesOnlyOnSuccess<E>(s: State, op: Op, o: Outcome<E>)
    ensures Step(s, op, o).next != s ==>
              Step(s, op, o).delegated && o.Success? && Step(s, op, o).next == Target(op)
    ensures Step(s, op, o).result == Ok <==> Permits(s, op) && o.Success?
  {
  }
}
