/** The driver wrappers of pkg/driver/wrapper.go: `wrapAdapter` turns an
    adapter into a video or an audio driver with an identifier, and the video
    wrapper's methods run the lifecycle state machine of module Lifecycle,
    with the start handshake of module Handshake inside Start. */
module Driver {
  import opened Types
  import opened Lifecycle
  import opened Handshake

  /** An adapter as the type switch in wrapAdapter sees it: whether it
      implements the video adapter interface, the audio one, both or neither. */
  datatype Adapter<V, A> = Adapter(asVideo: Option<V>, asAudio: Option<A>)

  datatype VideoWrapper<V> = VideoWrapper(adapter: V, id: string, state: State)

  datatype AudioWrapper<A> = AudioWrapper(adapter: A, id: string, state: State)

  /** The driver wrapAdapter returns: a video or an audio wrapper. */
  datatype Wrapped<V, A> = VideoDriver(video: VideoWrapper<V>) | AudioDriver(audio: AudioWrapper<A>)

  /** The identifier a driver reports (ID on either wrapper). */
  function ID<V, A>(d: Wrapped<V, A>): (r: string)
    ensures d.VideoDriver? ==> r == d.video.id
    ensures d.AudioDriver? ==> r == d.audio.id
  {
    match d
    case VideoDriver(w) => w.id
    case AudioDriver(w) => w.id
  }

  /** The state a driver reports (Status on either wrapper). */
  function Status<V, A>(d: Wrapped<V, A>): (r: State)
    ensures d.VideoDriver? ==> r == d.video.state
    ensures d.AudioDriver? ==> r == d.audio.state
  {
    match d
    case VideoDriver(w) => w.state
    case AudioDriver(w) => w.state
  }

  /** wrapAdapter, with the freshly generated identifier passed in. The video
      interface is tried first; an adapter with neither interface yields no
      driver (a nil Driver in the source). */
  function WrapAdapter<V, A>(a: Adapter<V, A>, id: string): (r: Option<Wrapped<V, A>>)
    ensures r.None? <==> a.asVideo.None? && a.asAudio.None?
    ensures r.Some? ==> ID(r.value) == id && Status(r.value) == Closed
    ensures r.Some? ==> (r.value.VideoDriver? <==> a.asVideo.Some?)
    ensures r.Some? && r.value.VideoDriver? ==> Some(r.value.video.adapter) == a.asVideo
    ensures r.Some? && r.value.AudioDriver? ==> Some(r.value.audio.adapter) == a.asAudio
  {
    match a.asVideo
    case Some(v) => Some(VideoDriver(VideoWrapper(v, id, InitialState)))
    case None =>
      match a.asAudio
      case Some(au) => Some(AudioDriver(AudioWrapper(au, id, InitialState)))
      case None => None
  }

  /** The wrapper after a call, what the call returned, and whether the
      adapter was called. */
  type Call<V, E> = Transition<VideoWrapper<V>, E>

  function Perform<V, E>(w: VideoWrapper<V>, op: Op, o: Outcome<E>): Call<V, E> {
    var tr := Step(w.state, op, o);
    Transition(w.(state := tr.next), tr.result, tr.delegated)
  }

  /** Open: refused unless Closed; otherwise Opened exactly when the
      adapter's Open returns nil, and the adapter's error as it is if not. */
  function VideoOpen<V, E>(w: VideoWrapper<V>, o: Outcome<E>): (r: Call<V, E>)
    ensures r.next == w.(state := r.next.state)
    ensures w.state != Closed ==> r == Transition(w, InvalidState(AlreadyOpened), false)
    ensures w.state == Closed ==> r.delegated && (r.next.state == Opened <==> o.Success?)
    ensures w.state == Closed && o.Success? ==> r.result == Ok
    ensures w.state == Closed && o.Failure? ==> r.next == w && r.result == AdapterErr(o.err)
  {
    Perform(w, Open, o)
  }

  /** Close: always calls the adapter; Closed from any state when it
      succeeds, nothing changed and its error returned when it fails. */
  function VideoClose<V, E>(w: VideoWrapper<V>, o: Outcome<E>): (r: Call<V, E>)
    ensures r.delegated
    ensures o.Success? ==> r.next == w.(state := Closed) && r.result == Ok
    ensures o.Failure? ==> r.next == w && r.result == AdapterErr(o.err)
  {
    Perform(w, Close, o)
  }

  /** Stop: refused unless Started; otherwise Stopped exactly when the
      adapter's Stop returns nil. */
  function VideoStop<V, E>(w: VideoWrapper<V>, o: Outcome<E>): (r: Call<V, E>)
    ensures r.next == w.(state := r.next.state)
    ensures w.state != Started ==> r == Transition(w, InvalidState(NotStarted), false)
    ensures w.state == Started ==> r.delegated && (r.next.state == Stopped <==> o.Success?)
    ensures w.state == Started && o.Success? ==> r.result == Ok
    ensures w.state == Started && o.Failure? ==> r.next == w && r.result == AdapterErr(o.err)
  {
    Perform(w, Stop, o)
  }

  /** Start, with the adapter's behaviour given as the trace `t`. None means
      Start never returns: the adapter neither delivered a frame nor
      returned. Otherwise the first signal on the channel decides. */
  function VideoStart<V, E>(w: VideoWrapper<V>, t: seq<Event<E>>): (r: Option<Call<V, E>>)
    ensures r.Some? ==> r.value.next == w.(state := r.value.next.state)
    // refused from Closed and from Started, for different reasons, with no adapter work
    ensures w.state == Closed ==> r == Some(Transition(w, InvalidState(NotOpened), false))
    ensures w.state == Started ==> r == Some(Transition(w, InvalidState(AlreadyStarted), false))
    // from Opened or Stopped the caller waits for the first signal
    ensures w.state in {Opened, Stopped} ==> (r.None? <==> t == [])
    ensures w.state in {Opened, Stopped} ==>
              (r.Some? && r.value.next.state == Started <==> FirstReceived(t) == Some(Success))
    ensures w.state in {Opened, Stopped} && t != [] ==>
              r.Some? && r.value.delegated
              && (r.value.next.state == Started <==> t[0].Frame? || t[0].out.Success?)
    ensures w.state in {Opened, Stopped} && t != [] && (t[0].Frame? || t[0].out.Success?) ==>
              r.value.result == Ok
    ensures w.state in {Opened, Stopped} && t != [] && t[0].Return? && t[0].out.Failure? ==>
              r.value == Transition(w, AdapterErr(t[0].out.err), true)
  {
    FirstReceivedIsFirstEvent(t);
    match Guard(w.state, Start)
    case Some(why) => Some(Transition(w, InvalidState(why), false))
    case None =>
      match FirstReceived(t)
      case None => None
      case Some(v) => Some(Perform(w, Start, v))
  }

  /** Start as the source runs it: spawn the goroutine over the whole trace,
      then take exactly one value off the channel. It agrees with VideoStart,
      and the signal nobody receives stays in the buffer without blocking. */
  method StartAndReceive<V, E>(w: VideoWrapper<V>, t: seq<Event<E>>) returns (r: Option<Call<V, E>>, unread: nat)
    requires WellFormed(t)
    ensures r == VideoStart(w, t)
    ensures unread < Capacity
    ensures r.None? || !r.value.delegated ==> unread == 0
  {
    match Guard(w.state, Start) {
      case Some(why) =>
        r, unread := Some(Transition(w, InvalidState(why), false)), 0;
      case None =>
        var ch, _ := Goroutine(t);
        FirstReceivedIsFirstEvent(t);
        if |ch.buffer| == 0 {
          // nothing is ever sent: the receive blocks forever
          r, unread := None, 0;
        } else {
          var v := ch.buffer[0];
          r, unread := Some(Perform(w, Start, v)), |ch.buffer| - 1;
        }
    }
  }

  /** Settings: an empty list, never an error, while Closed; the adapter's
      list `listed` otherwise. */
  function VideoSettings<V, S>(w: VideoWrapper<V>, listed: seq<S>): (r: seq<S>)
    ensures w.state == Closed ==> r == []
    ensures w.state != Closed ==> r == listed
  {
    if w.state == Closed then [] else listed
  }

  /** One lifecycle call a user makes, with the adapter's answer. */
  datatype Request<E> =
    | OpenReq(o: Outcome<E>)
    | CloseReq(o: Outcome<E>)
    | StartReq(events: seq<Event<E>>)
    | StopReq(o: Outcome<E>)

  /** Handles one request; None exactly when it is a permitted Start whose
      adapter does nothing, so the call never returns. */
  function Handle<V, E>(w: VideoWrapper<V>, q: Request<E>): (r: Option<Call<V, E>>)
    ensures r.None? <==> q.StartReq? && q.events == [] && w.state in {Opened, Stopped}
    ensures r.Some? ==> r.value.next.id == w.id && r.value.next.adapter == w.adapter
  {
    match q
    case OpenReq(o) => Some(VideoOpen(w, o))
    case CloseReq(o) => Some(VideoClose(w, o))
    case StartReq(t) => VideoStart(w, t)
    case StopReq(o) => Some(VideoStop(w, o))
  }

  /** A user's calls one after another (callers serialise lifecycle calls),
      ending early if a Start never returns. The wrapper's identifier and
      adapter are the same at the end as at the start. */
  function Session<V, E>(w: VideoWrapper<V>, qs: seq<Request<E>>): (r: (VideoWrapper<V>, seq<Result<E>>))
    ensures r.0.id == w.id && r.0.adapter == w.adapter
    ensures |r.1| <= |qs|
    ensures |r.1| < |qs| ==> qs[|r.1|].StartReq? && qs[|r.1|].events == []
    ensures |r.1| < |qs| ==> Handle(r.0, qs[|r.1|]).None?
    ensures qs != [] && Handle(w, qs[0]).Some? ==> |r.1| > 0 && r.1[0] == Handle(w, qs[0]).value.result
    decreases |qs|
  {
    if qs == [] then (w, [])
    else
      match Handle(w, qs[0])
      case None => (w, [])
      case Some(c) =>
        var rest := Session(c.next, qs[1..]);
        (rest.0, [c.result] + rest.1)
  }

  /** Where a session stops early, it stops at the state the earlier calls
      reached, and there the stopping call is a Start that never returns. */
  lemma {:induction false} SessionStop<V, E>(w: VideoWrapper<V>, qs: seq<Request<E>>)
    ensures var r := Session(w, qs);
      |r.1| < |qs| ==> Session(w, qs[..|r.1|]) == r && Handle(r.0, qs[|r.1|]).None?
    decreases |qs|
  {
    if qs != [] {
      match Handle(w, qs[0])
      case None =>
        assert qs[..0] == [];
      case Some(c) =>
        var rest := Session(c.next, qs[1..]);
        SessionStop(c.next, qs[1..]);
        if |rest.1| < |qs[1..]| {
          var n := 1 + |rest.1|;
          assert qs[..n][0] == qs[0];
          assert qs[..n][1..] == qs[1..][..|rest.1|];
        }
    }
  }

  /** The k-th result of a session is what the k-th call gives on the wrapper
      the first k calls left behind. */
  lemma {:induction false} SessionPrefix<V, E>(w: VideoWrapper<V>, qs: seq<Request<E>>, k: nat)
    requires k < |Session(w, qs).1|
    ensures Session(w, qs[..k]).1 == Session(w, qs).1[..k]
    ensures Handle(Session(w, qs[..k]).0, qs[k]).Some?
    ensures Session(w, qs).1[k] == Handle(Session(w, qs[..k]).0, qs[k]).value.result
    decreases |qs|
  {
    match Handle(w, qs[0])
    case Some(c) =>
      if k == 0 {
        assert qs[..0] == [];
      } else {
        SessionPrefix(c.next, qs[1..], k - 1);
        assert qs[..k][0] == qs[0];
        assert qs[..k][1..] == qs[1..][..k - 1];
      }
  }

  /** The identifier wrapAdapter assigns is what ID reports after any
      sequence of lifecycle calls. */
  lemma IdNeverChanges<V, A, E>(a: Adapter<V, A>, id: string, qs: seq<Request<E>>)
    requires a.asVideo.Some?
    ensures WrapAdapter(a, id).Some? && WrapAdapter(a, id).value.VideoDriver?
    ensures ID<V, A>(VideoDriver(Session(WrapAdapter(a, id).value.video, qs).0)) == id
  {
  }

  /** Settings follows the lifecycle: the adapter's list once an Open has
      succeeded, and the empty list again once a Close has succeeded. */
  lemma SettingsFollowLifecycle<V, S, E>(w: VideoWrapper<V>, listed: seq<S>, o: Outcome<E>)
    ensures w.state == Closed ==> VideoSettings(VideoOpen<V, E>(w, Success).next, listed) == listed
    ensures VideoSettings(VideoClose<V, E>(w, Success).next, listed) == []
    ensures o.Failure? ==> VideoSettings(VideoOpen(w, o).next, listed) == VideoSettings(w, listed)
  {
  }

  /** An adapter that delivers one frame and then fails at once: Start
      reports success, and both signals fit in the channel. */
  lemma FrameThenError<V, E>(w: VideoWrapper<V>, b: Bytes, e: E)
    requires w.state == Opened
    ensures VideoStart(w, [Frame(b), Return(Failure(e))]) == Some(Transition(w.(state := Started), Ok, true))
    ensures Values(Signals([Frame(b), Return(Failure(e))], true)) == [Success, Failure(e)]
  {
    var t: seq<Event<E>> := [Frame(b), Return(Failure(e))];
    var u := t[1..];
    assert u == [Return(Failure(e))] && u[1..] == [];
    assert Signals(u, false) == [Terminal(Failure(e))];
    assert Signals(t, true) == [FirstFrame] + Signals(u, false);
    var sigs: seq<Signal<E>> := [FirstFrame, Terminal(Failure(e))];
    assert sigs[1..] == [Terminal(Failure(e))] && sigs[1..][1..] == [];
    assert Values(sigs[1..]) == [Failure(e)];
    assert Values(sigs) == [Success] + Values(sigs[1..]);
  }
}
