/** The probe as its users see it: loop events and HTTP requests interleaved
    in one ordered trace. Each read is atomic, so any concurrent schedule of
    the update loop and the request handlers is one such interleaving. */
module Server {
  import opened Probe
  import opened Handler

  /** One thing that happens to the probe: the loop takes an event, or the
      handler serves a request. */
  datatype Action = Deliver(event: Event) | Request

  /** Final state, acknowledgments emitted, and responses served, in order. */
  datatype Execution = Execution(state: State, acks: seq<Status>, responses: seq<Response>)

  /** The loop events of a trace of actions, in order. */
  function Events(acts: seq<Action>): (t: seq<Event>)
    ensures |t| <= |acts|
    ensures forall e :: e in t <==> Deliver(e) in acts
    decreases |acts|
  {
    if acts == [] then []
    else
      assert acts == [acts[0]] + acts[1..];
      (if acts[0].Deliver? then [acts[0].event] else []) + Events(acts[1..])
  }

  /** Drives the probe through a trace of actions: one response per request,
      and a running loop keeps running only while no cancellation arrives. */
  function Exec(p: State, signal: bool, acts: seq<Action>): (r: Execution)
    ensures |r.responses| == |acts| - |Events(acts)|
    ensures |r.acks| <= |Events(acts)|
    ensures r.state.running ==> p.running
    decreases |acts|
  {
    if acts == [] then Execution(p, [], [])
    else
      match acts[0]
      case Request =>
        var rest := Exec(p, signal, acts[1..]);
        Execution(rest.state, rest.acks, [Serve(p)] + rest.responses)
      case Deliver(e) =>
        var s := Step(p, signal, e);
        var rest := Exec(s.state, signal, acts[1..]);
        Execution(rest.state, s.acks + rest.acks, rest.responses)
  }

  /** Every status the probe holds over a trace: the one it starts with, then
      each update its loop applies. */
  function History(p: State, t: seq<Event>): (h: seq<Status>)
  {
    [Read(p)] + (if p.running then Applied(t) else [])
  }

  /** Serving requests never changes the probe: with the requests removed, the
      loop events alone give the same final state and acknowledgments. */
  lemma {:induction false} RequestsLeaveStateAlone(p: State, signal: bool, acts: seq<Action>)
    ensures Exec(p, signal, acts).state == Run(p, signal, Events(acts)).state
    ensures Exec(p, signal, acts).acks == Run(p, signal, Events(acts)).acks
    decreases |acts|
  {
    if acts != [] {
      match acts[0]
      case Request =>
        assert Events(acts) == Events(acts[1..]);
        RequestsLeaveStateAlone(p, signal, acts[1..]);
      case Deliver(e) =>
        var t := Events(acts[1..]);
        assert Events(acts) == [e] + t;
        assert ([e] + t)[0] == e;
        assert ([e] + t)[1..] == t;
        RequestsLeaveStateAlone(Step(p, signal, e).state, signal, acts[1..]);
    }
  }

  /** The result of executing a concatenated trace, when its first half
      leaves `m` and the second half, run from there, leaves `n`. */
  function Joined(m: Execution, n: Execution): (r: Execution)
  {
    Execution(n.state, m.acks + n.acks, m.responses + n.responses)
  }

  /** Executing a concatenated trace is executing its halves one after the
      other, with acknowledgments and responses concatenated. */
  lemma {:induction false} ExecAppend(p: State, signal: bool, a: seq<Action>, b: seq<Action>)
    ensures Exec(p, signal, a + b)
         == Joined(Exec(p, signal, a), Exec(Exec(p, signal, a).state, signal, b))
    decreases |a|
  {
    if a == [] {
      assert a + b == b;
    } else {
      assert (a + b)[0] == a[0];
      assert (a + b)[1..] == a[1..] + b;
      match a[0]
      case Request =>
        ExecAppend(p, signal, a[1..], b);
        ExecAppendRequest(p, signal, a, b);
      case Deliver(e) =>
        ExecAppend(Step(p, signal, e).state, signal, a[1..], b);
        ExecAppendDeliver(p, signal, a, b);
    }
  }

  /** The inductive step of ExecAppend when the first action is a request. */
  lemma ExecAppendRequest(p: State, signal: bool, a: seq<Action>, b: seq<Action>)
    requires a != [] && a[0] == Request
    requires (a + b)[0] == a[0] && (a + b)[1..] == a[1..] + b
    requires Exec(p, signal, a[1..] + b)
          == Joined(Exec(p, signal, a[1..]), Exec(Exec(p, signal, a[1..]).state, signal, b))
    ensures Exec(p, signal, a + b)
         == Joined(Exec(p, signal, a), Exec(Exec(p, signal, a).state, signal, b))
  {
    var tail := Exec(p, signal, a[1..]);
    var n := Exec(tail.state, signal, b);
    assert [Serve(p)] + (tail.responses + n.responses) == ([Serve(p)] + tail.responses) + n.responses;
  }

  /** The inductive step of ExecAppend when the first action is a loop event. */
  lemma ExecAppendDeliver(p: State, signal: bool, a: seq<Action>, b: seq<Action>)
    requires a != [] && a[0].Deliver?
    requires (a + b)[0] == a[0] && (a + b)[1..] == a[1..] + b
    requires Exec(Step(p, signal, a[0].event).state, signal, a[1..] + b)
          == Joined(Exec(Step(p, signal, a[0].event).state, signal, a[1..]),
                    Exec(Exec(Step(p, signal, a[0].event).state, signal, a[1..]).state, signal, b))
    ensures Exec(p, signal, a + b)
         == Joined(Exec(p, signal, a), Exec(Exec(p, signal, a).state, signal, b))
  {
  }

  /** A request served anywhere in a trace renders exactly the status that the
      loop events before it leave the probe holding; events after it play no
      part in its response. */
  lemma RequestSeesCurrent(p: State, signal: bool, a: seq<Action>, b: seq<Action>)
    ensures |Exec(p, signal, a).responses| < |Exec(p, signal, a + [Request] + b).responses|
    ensures Exec(p, signal, a + [Request] + b).responses[|Exec(p, signal, a).responses|]
         == Serve(Run(p, signal, Events(a)).state)
  {
    var rb := [Request] + b;
    assert a + [Request] + b == a + rb;
    ExecAppend(p, signal, a, rb);
    var m := Exec(p, signal, a);
    assert rb[0] == Request;
    assert rb[1..] == b;
    assert Exec(m.state, signal, rb).responses == [Serve(m.state)] + Exec(m.state, signal, b).responses;
    RequestsLeaveStateAlone(p, signal, a);
  }

  /** The history seen from a later state is part of the history seen from an
      earlier one. */
  lemma HistoryAfterStep(p: State, signal: bool, e: Event, t: seq<Event>)
    ensures forall h :: h in History(Step(p, signal, e).state, t) ==> h in History(p, [e] + t)
  {
  }

  /** No torn reads: every response served renders one whole status the probe
      actually held at some point — its initial one or an applied update. */
  lemma {:induction false} ResponsesAreSnapshots(p: State, signal: bool, acts: seq<Action>)
    ensures forall r :: r in Exec(p, signal, acts).responses ==>
              exists h :: h in History(p, Events(acts)) && r == Render(h)
    decreases |acts|
  {
    if acts != [] {
      var t := Events(acts[1..]);
      match acts[0]
      case Request =>
        assert Events(acts) == t;
        ResponsesAreSnapshots(p, signal, acts[1..]);
        assert Serve(p) == Render(Read(p));
        assert Read(p) in History(p, t);
      case Deliver(e) =>
        assert Events(acts) == [e] + t;
        var q := Step(p, signal, e).state;
        ResponsesAreSnapshots(q, signal, acts[1..]);
        HistoryAfterStep(p, signal, e, t);
    }
  }

  /** The status test's script, with no acknowledgment channel: healthy at
      first, unhealthy after the first update, healthy after the second. */
  lemma StatusTestScript()
    ensures Read(New()).healthy
    ensures !Read(Run(New(), false, [Update(Status(false, ""))]).state).healthy
    ensures Read(Run(New(), false, [Update(Status(false, "")), Update(Status(true, ""))]).state).healthy
    ensures Run(New(), false, [Update(Status(false, "")), Update(Status(true, ""))]).acks == []
  {
    LastWriteWins(New(), false, [Update(Status(false, ""))]);
    LastWriteWins(New(), false, [Update(Status(false, "")), Update(Status(true, ""))]);
    AckCount(New(), false, [Update(Status(false, "")), Update(Status(true, ""))]);
  }

  /** The handler test's script, with the acknowledgment channel supplied:
      request, unhealthy update, request, healthy update, request. The three
      responses are 200, 500 and 200 with empty bodies, and each update is
      acknowledged once, in order. */
  lemma HandlerTestScript()
    ensures Exec(New(), true, [Request, Deliver(Update(Status(false, ""))), Request,
                               Deliver(Update(Status(true, ""))), Request]).responses
         == [Response(StatusOK, TextPlain, ""),
             Response(StatusInternalServerError, TextPlain, ""),
             Response(StatusOK, TextPlain, "")]
    ensures Exec(New(), true, [Request, Deliver(Update(Status(false, ""))), Request,
                               Deliver(Update(Status(true, ""))), Request]).acks
         == [Status(false, ""), Status(true, "")]
  {
    var down, up := Status(false, ""), Status(true, "");
    var acts := [Request, Deliver(Update(down)), Request, Deliver(Update(up)), Request];
    assert acts[1..] == [Deliver(Update(down)), Request, Deliver(Update(up)), Request];
    assert acts[2..] == [Request, Deliver(Update(up)), Request];
    assert acts[3..] == [Deliver(Update(up)), Request];
    assert acts[4..] == [Request];
    assert acts[1..][1..] == acts[2..];
    assert acts[2..][1..] == acts[3..];
    assert acts[3..][1..] == acts[4..];
    assert acts[4..][1..] == [];
  }
}
