/** The status holder of a liveness/readiness probe, stripped of its lock and
    goroutine: a held health snapshot, a read, and an update loop modelled as a
    step function folded over an ordered trace of loop events. */
module Probe {

  /** A complete health snapshot: the pass/fail verdict plus free-form text. */
  datatype Status = Status(healthy: bool, message: string)

  /** One input taken by the update loop, in the order the loop takes it:
      a new status from the update channel, or the context's cancellation. */
  datatype Event = Update(status: Status) | Cancel

  /** The probe: the status it holds and whether its update loop still runs. */
  datatype State = State(status: Status, running: bool)

  /** A new state plus the acknowledgments emitted on the way there. Each
      acknowledgment records the status a reader sees at the moment it is sent. */
  datatype Outcome = Outcome(state: State, acks: seq<Status>)

  /** The optimistic default: healthy, with the zero-value (empty) message. */
  const Initial: Status := Status(true, "")

  /** A freshly constructed probe, its update loop ready to take events. */
  function New(): (p: State)
    ensures Read(p).healthy && Read(p).message == ""
    ensures p.running
  {
    State(Initial, true)
  }

  /** The held status, as one whole snapshot: every field comes from the
      same stored value. */
  function Read(p: State): (s: Status)
    ensures s == p.status
  {
    p.status
  }

  /** One iteration of the update loop. `signal` says whether the optional
      acknowledgment channel was supplied (non-nil). */
  function Step(p: State, signal: bool, e: Event): (r: Outcome)
    ensures |r.acks| <= 1
    ensures r.acks != [] <==> p.running && e.Update? && signal
    ensures forall a :: a in r.acks ==> a == Read(r.state)
    ensures r.state.running ==> p.running
    ensures !p.running ==> r == Outcome(p, [])
    ensures p.running && e.Update? ==> r.state == State(e.status, true)
    ensures p.running && e.Cancel? ==> r.state == p.(running := false)
  {
    if !p.running then Outcome(p, [])
    else
      match e
      case Cancel => Outcome(p.(running := false), [])
      case Update(s) =>
        var q := p.(status := s);
        Outcome(q, if signal then [Read(q)] else [])
  }

  /** The update loop over a whole trace: Step folded from left to right,
      acknowledgments concatenated in emission order. */
  function Run(p: State, signal: bool, t: seq<Event>): (r: Outcome)
    ensures |r.acks| <= |t|
    ensures r.state.running ==> p.running
    decreases |t|
  {
    if t == [] then Outcome(p, [])
    else
      var s := Step(p, signal, t[0]);
      var rest := Run(s.state, signal, t[1..]);
      Outcome(rest.state, s.acks + rest.acks)
  }

  // ---------------------------------------------------------------------
  // Reference definitions, independent of Step and Run

  /** The events before the first cancellation: the part of a trace the loop
      actually takes. */
  function UntilCancel(t: seq<Event>): (u: seq<Event>)
    ensures u <= t
    ensures Cancel !in u
    ensures Cancel in t ==> |u| < |t| && t[|u|] == Cancel
    ensures Cancel !in t ==> u == t
    decreases |t|
  {
    if t == [] then []
    else if t[0] == Cancel then []
    else
      assert t == [t[0]] + t[1..];
      [t[0]] + UntilCancel(t[1..])
  }

  /** The statuses carried by the update events of a trace, in trace order. */
  function Updates(t: seq<Event>): (us: seq<Status>)
    ensures |us| <= |t|
    ensures forall s :: s in us <==> Update(s) in t
    decreases |t|
  {
    if t == [] then []
    else
      assert t == [t[0]] + t[1..];
      (if t[0].Update? then [t[0].status] else []) + Updates(t[1..])
  }

  /** The updates a running loop applies from a trace. */
  function Applied(t: seq<Event>): (us: seq<Status>)
  {
    Updates(UntilCancel(t))
  }

  /** The last element of `s`, or `d` when `s` is empty. */
  function LastOr(d: Status, s: seq<Status>): (x: Status)
  {
    if s == [] then d else s[|s| - 1]
  }

  // ---------------------------------------------------------------------
  // Lemmas about the fold

  lemma LastOrCons(d: Status, x: Status, s: seq<Status>)
    ensures LastOr(d, [x] + s) == LastOr(x, s)
  {
  }

  /** Updates distributes over concatenation. */
  lemma {:induction false} UpdatesAppend(a: seq<Event>, b: seq<Event>)
    ensures Updates(a + b) == Updates(a) + Updates(b)
    decreases |a|
  {
    if a == [] {
      assert a + b == b;
    } else {
      assert (a + b)[0] == a[0];
      assert (a + b)[1..] == a[1..] + b;
      UpdatesAppend(a[1..], b);
    }
  }

  /** Updating replaces the held status wholesale: the state after an update
      depends on the update alone, never on the status held before it. */
  lemma UpdateReplaces(p: State, q: State, signal: bool, s: Status)
    requires p.running && q.running
    ensures Step(p, signal, Update(s)) == Step(q, signal, Update(s))
    ensures Read(Step(p, signal, Update(s)).state) == s
  {
  }

  /** A stopped loop takes nothing further: any trace leaves the state as it is
      and emits no acknowledgment. */
  lemma {:induction false} RunFrozen(p: State, signal: bool, t: seq<Event>)
    requires !p.running
    ensures Run(p, signal, t) == Outcome(p, [])
    decreases |t|
  {
    if t != [] {
      RunFrozen(p, signal, t[1..]);
    }
  }

  /** What a running loop does with a trace: it holds the last applied update
      (or its old status if none), stops exactly when the trace cancels it, and
      acknowledges every applied update in order when the channel is supplied
      and none otherwise. */
  lemma {:induction false} RunApplies(p: State, signal: bool, t: seq<Event>)
    requires p.running
    ensures Read(Run(p, signal, t).state) == LastOr(Read(p), Applied(t))
    ensures Run(p, signal, t).state.running <==> Cancel !in t
    ensures Run(p, signal, t).acks == (if signal then Applied(t) else [])
    decreases |t|
  {
    if t != [] {
      assert t == [t[0]] + t[1..];
      match t[0]
      case Cancel =>
        RunFrozen(p.(running := false), signal, t[1..]);
      case Update(s) =>
        var q := p.(status := s);
        RunApplies(q, signal, t[1..]);
        var u := UntilCancel(t[1..]);
        assert UntilCancel(t) == [t[0]] + u;
        assert ([t[0]] + u)[0] == t[0];
        assert ([t[0]] + u)[1..] == u;
        assert Applied(t) == [s] + Applied(t[1..]);
        LastOrCons(Read(p), s, Applied(t[1..]));
    }
  }

  /** Running a concatenated trace is running its halves one after the other. */
  lemma {:induction false} RunAppend(p: State, signal: bool, a: seq<Event>, b: seq<Event>)
    ensures Run(p, signal, a + b)
         == Outcome(Run(Run(p, signal, a).state, signal, b).state,
                    Run(p, signal, a).acks + Run(Run(p, signal, a).state, signal, b).acks)
    decreases |a|
  {
    if a == [] {
      assert a + b == b;
    } else {
      assert (a + b)[0] == a[0];
      assert (a + b)[1..] == a[1..] + b;
      var s := Step(p, signal, a[0]);
      RunAppend(s.state, signal, a[1..], b);
    }
  }

  /** Last write wins: with no cancellation, the loop ends holding the last
      update of the trace, or its old status if the trace has none. */
  lemma LastWriteWins(p: State, signal: bool, t: seq<Event>)
    requires p.running
    requires Cancel !in t
    ensures Read(Run(p, signal, t).state) == LastOr(Read(p), Updates(t))
    ensures Run(p, signal, t).state.running
  {
    RunApplies(p, signal, t);
  }

  /** Updates take effect in trace order: once the i-th event, an update, has
      been applied, the probe holds exactly that update; if the channel is
      supplied, one acknowledgment has been emitted per update so far, the last
      of them showing that update, and none otherwise. */
  lemma KthUpdate(p: State, signal: bool, t: seq<Event>, i: int)
    requires p.running
    requires 0 <= i < |t| && t[i].Update?
    requires Cancel !in t[..i]
    ensures Read(Run(p, signal, t[..i + 1]).state) == t[i].status
    ensures Run(p, signal, t[..i + 1]).state.running
    ensures signal ==> |Run(p, signal, t[..i + 1]).acks| == |Updates(t[..i + 1])|
    ensures signal ==> Run(p, signal, t[..i + 1]).acks[|Updates(t[..i + 1])| - 1] == t[i].status
    ensures !signal ==> Run(p, signal, t[..i + 1]).acks == []
  {
    var pre, u := t[..i + 1], t[i];
    assert pre == t[..i] + [u];
    assert Cancel !in pre;
    assert UntilCancel(pre) == pre;
    UpdatesAppend(t[..i], [u]);
    assert Updates([u]) == [u.status];
    var applied := Updates(pre);
    assert applied == Updates(t[..i]) + [u.status];
    assert LastOr(Read(p), applied) == u.status;
    RunApplies(p, signal, pre);
  }

  /** Cancellation freezes the state: whatever follows a cancellation, the
      probe keeps the status it held when cancelled, its loop has stopped, and
      no further acknowledgment is emitted. */
  lemma CancelFreezes(p: State, signal: bool, a: seq<Event>, b: seq<Event>)
    ensures Read(Run(p, signal, a + [Cancel] + b).state) == Read(Run(p, signal, a).state)
    ensures !Run(p, signal, a + [Cancel] + b).state.running
    ensures Run(p, signal, a + [Cancel] + b).acks == Run(p, signal, a).acks
  {
    assert a + [Cancel] + b == a + ([Cancel] + b);
    RunAppend(p, signal, a, [Cancel] + b);
    var m := Run(p, signal, a).state;
    var c := Step(m, signal, Cancel).state;
    assert ([Cancel] + b)[0] == Cancel;
    assert ([Cancel] + b)[1..] == b;
    RunFrozen(c, signal, b);
  }

  /** Without an acknowledgment channel the loop never acknowledges anything;
      with one, it acknowledges exactly as many updates as it applies. */
  lemma AckCount(p: State, signal: bool, t: seq<Event>)
    ensures !signal ==> Run(p, signal, t).acks == []
    ensures signal && p.running ==> |Run(p, signal, t).acks| == |Applied(t)|
  {
    if p.running {
      RunApplies(p, signal, t);
    } else {
      RunFrozen(p, signal, t);
    }
  }
}
