# Driver wrapper lifecycle (mediadevices `pkg/driver`)

A Dafny model of the driver wrapper in `pkg/driver/wrapper.go`. `wrapAdapter`
turns a capture adapter into a driver with an identifier: a video wrapper if
the adapter implements the video adapter interface, otherwise an audio wrapper
if it implements the audio one. The video wrapper keeps a lifecycle state
(Closed, Opened, Started, Stopped). Its `Open`, `Start` and `Stop` methods
check the state before they call the adapter; `Close` always calls it;
`Settings` returns nil while Closed. The state moves only when a call reaches
the adapter and the adapter reports success.

`Start` runs the adapter's `Start` on a goroutine. The callback it passes sends
one nil on a channel of capacity 2 for the first frame. The goroutine then
sends the adapter's own return value on the same channel. The caller blocks on
a single receive.

Files and modules:

- `types.dfy` (`Types`): `Option`, and `Outcome` for a Go `error` (nil or an
  opaque error value).
- `lifecycle.dfy` (`Lifecycle`): the states, the four state-changing
  operations, refusal reasons, and `Step`, the pure transition function. It is
  checked against a reference table `Permits`/`Target`.
- `handshake.dfy` (`Handshake`): the start handshake. The adapter's behaviour
  is an ordered trace of events: frame callbacks and at most one return of its
  `Start`. `Run` gives the goroutine's and callback's actions: sends on the
  channel and deliveries to the user callback. `Goroutine` runs the trace
  against a channel whose `Enqueue` needs room in the buffer.
- `driver.dfy` (`Driver`): `WrapAdapter`, `ID`/`Status` for both wrappers, the
  video wrapper's methods, and a `Session` of serialised calls.

The model follows the code in two places where a reader might expect otherwise:

- The first signal is nil in two cases. Either a frame arrives first, or the
  adapter's `Start` returns nil before any frame, because the goroutine sends
  that nil too (lines 79 and 89-92). In both cases `Start` succeeds.
- For the first frame, the nil is sent before the frame is handed to the user
  callback (lines 80-84). So a successful `Start` can return before the
  callback has seen the first frame (`Handshake.ReleaseBeforeCallback`).

## Model

| member | source | states |
|---|---|---|
| Lifecycle.Step | pkg/driver/wrapper.go:44-106 | The adapter is called exactly when the transition table permits the operation from the current state. A refused call leaves the state and reports an invalid state. A permitted call moves to the operation's target state exactly when the adapter returns nil; otherwise the state stays and the adapter's error is returned as it is. Each refusal reason pins down its cause; Start's two refusals (Closed, Started) have distinct reasons. |
| Lifecycle.GuardMatchesTable | pkg/driver/wrapper.go:44-106 | The checks the methods make before calling the adapter refuse exactly the calls the transition table does not permit. |
| Lifecycle.StateMovesOnlyOnSuccess | pkg/driver/wrapper.go:44-106 | The state changes only on a call that reached the adapter and got nil, and then only to that operation's target. A call returns Ok exactly when it is permitted and the adapter succeeds. |
| Handshake.Reaction | pkg/driver/wrapper.go:79-85 | One adapter event's actions: a frame sends nil only while the flag is set, and that send comes before the frame is handed to the user callback; a return sends the adapter's value. Its sends and deliveries are the event's reference signal and frame. |
| Handshake.Run | pkg/driver/wrapper.go:77-86 | The goroutine and callback over a whole trace. The sends they make are the trace's reference signals, event by event. The frames they hand to the user callback are all the trace's frames, in order, whether or not they triggered a signal. |
| Handshake.SuccessSignalAtMostOnce | pkg/driver/wrapper.go:77-86 | Over any number of frames, the `first` flag lets the nil success signal out exactly once if the flag is set and some frame arrives, and never once the flag is cleared. |
| Handshake.SignalCount | pkg/driver/wrapper.go:73-89 | The number of signals sent is the single first-frame nil (if any) plus the number of times the adapter's Start returns. |
| Handshake.AtMostTwoSignals | pkg/driver/wrapper.go:73-75 | When the adapter's Start returns at most once, at most two signals are sent, which is the channel's capacity; this bounds both the actions of the run and the reference signals of the trace. |
| Handshake.FirstReceivedIsFirstEvent | pkg/driver/wrapper.go:88-89 | The caller's single receive is decided by the adapter's first event: nil for a frame, the adapter's return value for a return. When the adapter never acts, nothing is sent and the caller waits forever. |
| Handshake.ReleaseBeforeCallback | pkg/driver/wrapper.go:80-84 | When the first event is a frame, the nil is sent before that frame is handed to the user callback. |
| Handshake.OnEvent | pkg/driver/wrapper.go:79-85 | One event's effect: the channel gains the event's signal value (nil for a first frame, the return value for a return), the flag is cleared by any frame, and a frame is appended to the deliveries. |
| Handshake.Goroutine | pkg/driver/wrapper.go:73-89 | With nobody receiving, every send finds room in the capacity-2 buffer, so no sender blocks. The buffer ends holding the trace's signal values, at most two. The first of them is nil for a first frame or the adapter's return value. Every frame is delivered. The buffer is empty exactly when the adapter did nothing. |
| Driver.ID | pkg/driver/wrapper.go:36-38 | ID of either wrapper (also lines 123-125) only reads the stored identifier. |
| Driver.Status | pkg/driver/wrapper.go:40-42 | Status of either wrapper (also lines 127-129) only reads the stored state. |
| Driver.WrapAdapter | pkg/driver/wrapper.go:9-27 | No driver exactly when the adapter has neither interface. The video interface wins when both match. The driver stores the given adapter and identifier, and starts out Closed (a modelling assumption). |
| Driver.VideoOpen | pkg/driver/wrapper.go:44-54 | From any state but Closed: an already-opened refusal, no adapter call, wrapper unchanged. From Closed: the adapter is called; Opened exactly when it returns nil; otherwise the wrapper is unchanged and the adapter's error returned. Only the state ever changes. |
| Driver.VideoClose | pkg/driver/wrapper.go:56-62 | The adapter is always called. On nil the wrapper is Closed from any state; on an error the wrapper is unchanged and the error returned. |
| Driver.VideoStart | pkg/driver/wrapper.go:64-94 | From Closed and from Started: distinct invalid-state refusals, no adapter work, wrapper unchanged. From Opened or Stopped: Start returns exactly when the adapter does something. The state becomes Started, with Ok returned, exactly when the first value received is nil, which is the case for a first frame or a nil return. A first error return leaves the wrapper unchanged and is returned as it is. Only the state ever changes. |
| Driver.StartAndReceive | pkg/driver/wrapper.go:73-93 | Running the goroutine against the modelled capacity-2 channel and receiving exactly one value gives the same result as VideoStart. At most one signal stays unreceived, below the capacity, and none when no handshake ran or nothing was sent. |
| Driver.VideoStop | pkg/driver/wrapper.go:96-106 | From any state but Started: a not-started refusal, no adapter call, wrapper unchanged. From Started: Stopped exactly when the adapter's Stop returns nil; otherwise unchanged with the error returned. |
| Driver.VideoSettings | pkg/driver/wrapper.go:108-114 | An empty list, not an error, while Closed; the adapter's list in every other state. |
| Driver.SettingsFollowLifecycle | pkg/driver/wrapper.go:108-114 | Settings gives the adapter's list once an Open from Closed has succeeded, and the empty list after any successful Close. A failed Open does not change what Settings gives. |
| Driver.Handle | pkg/driver/wrapper.go:44-106 | One lifecycle call on the video wrapper. It fails to return exactly for a Start from Opened or Stopped whose adapter does nothing; a refused Start returns at once. Otherwise only the wrapper's state can change. |
| Driver.Session | pkg/driver/wrapper.go:29-114 | Over any sequence of serialised lifecycle calls, the wrapper's identifier and adapter stay the same, there is at most one result per call, and the first result is the first call's own result. |
| Driver.SessionStop | pkg/driver/wrapper.go:64-94 | A session that ends early ends at the wrapper the earlier calls left behind, and there the stopping call is a Start permitted in that state whose adapter does nothing, so it never returns; nothing comes after it. |
| Driver.SessionPrefix | pkg/driver/wrapper.go:44-106 | The k-th result of a session is exactly the result of the k-th call on the wrapper that the first k calls left behind, and the results of that prefix are the session's first k results. |
| Driver.IdNeverChanges | pkg/driver/wrapper.go:9-38 | The identifier given to wrapAdapter is what ID reports after any sequence of lifecycle calls. |
| Driver.FrameThenError | pkg/driver/wrapper.go:73-93 | An adapter that delivers one frame and then returns an error: Start reports success and the state becomes Started. Both signals (nil, then the error) fit in the channel. |

## Left out

- Identifier generation (`uuid.NewV4`, line 11) is a call into a random UUID library. The identifier is a parameter of `WrapAdapter`, and its uniqueness is a probabilistic claim that is not modelled.
- Goroutine and channel concurrency, and the unsynchronised access to `state` from the caller. The handshake is an ordered trace of adapter events, so the adapter is assumed to call the frame callback one call at a time. The `first` flag (lines 78-82) is an unsynchronised captured variable: two overlapping callbacks could both see it set and both send nil, and then `Handshake.SuccessSignalAtMostOnce` and `Handshake.AtMostTwoSignals` would not hold. The channel is checked in the worst case, where nobody receives. Callers are assumed to serialise lifecycle calls.
- Adapter internals. `VideoAdapter` and `AudioAdapter` are declared outside wrapper.go. Their answers are parameters: an `Outcome` for `Open`/`Close`/`Stop`, an event trace for `Start`, and a list for `Settings`. The `setting` argument of `Start` goes to the adapter unchanged and is not modelled.
- Error message strings built with `fmt.Errorf`. They are an enum of refusal reasons.
- The audio wrapper's lifecycle methods. Only its `ID` and `Status` (lines 123-129) are in the source, and they are modelled through `Driver.ID`/`Driver.Status`.
- The initial state. `wrapAdapter` leaves `state` at the zero value of a `State` type declared outside wrapper.go. `Lifecycle.InitialState` assumes that this is Closed.
- `nil` slices. A `nil` result of `Settings` and an empty list are both the empty sequence.
- Driver.StartAndReceive requires that the adapter's `Start` returns at most once in the trace. A Go call always satisfies this; the functional `VideoStart` needs no such assumption.
