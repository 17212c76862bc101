# go-probe, modelled in Dafny

go-probe is a liveness/readiness probe primitive. A `Probe` holds the most
recently known health `Status` of a service (a `Healthy` flag and a free-form
`Message`). It starts out optimistically healthy. An `Updater` loop replaces
the held status with each value received on an update channel and, if a
signal channel was supplied, acknowledges each write. The loop stops when its
context is cancelled. An HTTP `Handler` renders the current status as
`200`/`500` with the message as a `text/plain` body.

This project models that core as a sequential state machine with no locks
and no goroutines:

- `probe.dfy`, module `Probe`: the `Status`, `Event` (`Update(s)` or `Cancel`)
  and `State` (held status plus whether the loop still runs) datatypes. It
  also holds the constructor `New`, the read `Read`, one loop iteration `Step`,
  and `Run`, which folds `Step` over an ordered trace of events. Every
  acknowledgment is recorded as the status a reader sees at the moment it is
  sent. The fold is compared with reference definitions that do not use
  `Step`: `UntilCancel` (the events before the first cancellation), `Updates`
  (the statuses of the update events) and `Applied` (the two combined).
- `handler.dfy`, module `Handler`: the `Response` record `(code, contentType,
  body)`, the pure `Render` of a snapshot, its inverse reading `Interpret`,
  and `Serve`, which renders a single read of a probe.
- `server.dfy`, module `Server`: loop events and HTTP requests interleaved
  in one ordered trace (`Exec`). Reads are atomic, so any concurrent schedule
  of the loop and the request handlers is one such interleaving. This module
  also holds the two scripts of the repository's tests.

`Status` is declared outside probe/probe.go; its fields (`healthy`,
`message`) are inferred from probe/probe.go lines 29, 49 and 55.

## Model

| member | source | states |
|---|---|---|
| `Probe.New` | probe/probe.go:18-34 | A fresh probe reads as healthy with the empty message, and its update loop is ready to take events. |
| `Probe.Read` | probe/probe.go:61-71 | A read returns the held status whole, as one stored value. It changes nothing; `Server.RequestsLeaveStateAlone` states this over interleaved traces, and `Probe.UpdateReplaces` relates it to updates. |
| `Probe.Step` | probe/probe.go:79-97 | On an update, a running loop holds exactly that update and keeps running. On a cancellation it keeps its status and stops. A stopped loop leaves the state as it is and emits nothing. One iteration emits at most one acknowledgment, exactly when the loop is running, the event is an update and the signal channel is non-nil, and it shows the status just written. Within one `Updater` invocation, a stopped loop never starts again. |
| `Probe.Run` | probe/probe.go:77-99 | Over a trace, the loop emits at most one acknowledgment per event, and once stopped it stays stopped. |
| `Probe.UpdateReplaces` | probe/probe.go:84-91 | An update replaces the status wholesale. The resulting state depends only on the update, not on the status held before. Afterwards a read returns the update exactly. |
| `Probe.RunFrozen` | probe/probe.go:80-83 | After the loop has stopped, any further trace leaves the state unchanged and emits no acknowledgment. |
| `Probe.RunApplies` | probe/probe.go:77-99 | A running loop ends up holding the last update applied before the first cancellation, or its old status if there is none. It stops exactly when the trace contains a cancellation. It acknowledges exactly the applied updates, in order, when the signal channel is non-nil, and none otherwise. |
| `Probe.RunAppend` | probe/probe.go:79-98 | Events are taken one at a time in trace order. Running `a + b` is the same as running `a` and then running `b` from the resulting state, with the acknowledgments concatenated. |
| `Probe.LastWriteWins` | probe/probe_test.go:104-131 | If the trace has no cancellation, the probe ends holding the last update in the trace, or its initial status if there were no updates, and the loop is still running. |
| `Probe.KthUpdate` | probe/probe.go:84-96 | Suppose the i-th event is an update and no cancellation comes before it. Once that event is applied, a read returns that update. With a signal channel, the acknowledgments so far number the updates so far, and the last of them shows this update. Without a channel, there are none. |
| `Probe.CancelFreezes` | probe/probe.go:80-83 | After a cancellation, later events do not change the status, the loop has stopped, and the acknowledgments are exactly those emitted before the cancellation. |
| `Probe.AckCount` | probe/probe.go:93-96 | With a nil signal channel, no acknowledgment is ever emitted. With a channel, a running loop emits exactly one per applied update. |
| `Handler.Render` | probe/probe.go:45-55 | The code is 200 if and only if the status is healthy, and 500 if and only if it is not. The content type is always `text/plain`. The body is exactly the message. |
| `Handler.RenderRoundTrip` | probe/probe.go:49-55 | Reading a rendered response back as a status gives exactly the status it was rendered from. |
| `Handler.RenderInjective` | probe/probe.go:49-55 | Two statuses that render to the same response are equal. |
| `Handler.Serve` | probe/probe.go:42-58 | A handler invocation answers 200 exactly when the held status is healthy and 500 exactly when it is not, with the held message as the body and a `text/plain` content type. The response reads back as exactly the held status, so code and body come from one snapshot. |
| `Handler.ServeNew` | probe/probe_test.go:90-99 | A fresh probe is served as 200 with an empty `text/plain` body. |
| `Server.Exec` | probe/probe.go:42-99 | Driving the probe through requests interleaved with loop events yields exactly one response per request and at most one acknowledgment per loop event, and a stopped loop stays stopped. |
| `Server.RequestsLeaveStateAlone` | probe/probe.go:62-70 | Serving requests never changes the probe. Drop the requests from an interleaved trace, and the loop events alone give the same final state and the same acknowledgments. |
| `Server.ExecAppend` | probe/probe.go:42-99 | Executing a concatenated trace of requests and loop events is executing its halves one after the other, with acknowledgments and responses concatenated in order. |
| `Server.RequestSeesCurrent` | probe/probe.go:42-55 | A request anywhere in a trace, not only at its end, is answered by the response at its own position. That response renders exactly the status left by the loop events before the request, so updates that arrive after it play no part. |
| `Server.ResponsesAreSnapshots` | probe/probe.go:62-71 | Every response renders one whole status that the probe actually held: its initial status or one of the applied updates. No response mixes fields from two statuses. |
| `Server.StatusTestScript` | probe/probe_test.go:13-68 | With no signal channel: healthy at first, unhealthy after the unhealthy update, healthy after the healthy one, and no acknowledgments. |
| `Server.HandlerTestScript` | probe/probe_test.go:69-148 | With a signal channel: the three requests get 200, 500 and 200, all with empty bodies. The two updates are acknowledged once each, in order. |

## Left out

- The `sync.RWMutex` (probe/probe.go:15, 63-64, 89-91) is left out. The status field is read and written atomically, and concurrent behaviour is modelled only as an ordered interleaving of loop events and requests (`Server.Exec`).
- The goroutine and the nondeterministic `select` between `ctx.Done()` and the update channel (probe/probe.go:80-84) are left out. The event trace already fixes which event the loop takes next. When both are ready, Go may pick either; each choice is a different trace.
- The blocking acknowledgment send, and the deadlock when nobody receives (probe/probe.go:94-96), are left out. Acknowledgments are collected in a sequence instead.
- `context.Context`, channels, starting the goroutine and `time.Sleep` in the tests are runtime plumbing and are left out. `New` returns a state whose loop is already taking events.
- `slog` logging (probe/probe.go:20-23, 39-43, 66-68, 78, 82, 85-87) is left out. It is purely observational.
- The `http.ResponseWriter` and the failed-write branch (probe/probe.go:55-57) are left out. A failed write is only logged and does not touch the probe's state. The response is a plain record.
- Exactly one `Updater` invocation per probe is modelled, running from construction. Re-running `Updater` after a cancellation (which makes updates resume), running two at once (two writers), and a closed update channel (on which `<-ch` at probe/probe.go:84 delivers the zero `Status{false, ""}` on every iteration) are not modelled. `Probe.RunFrozen` and `Probe.CancelFreezes` hold for that single invocation.
- The `name` field and the logger arguments of `New` and `Handler` are left out. They only tag log lines.
- The body is modelled as a `string`, the same sequence as the message. Go's `[]byte(string)` conversion keeps the underlying bytes as they are. No character encoding is modelled.
