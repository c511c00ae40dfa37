/** Polling a Scope job (startScopeJobPolling in WebUI/src/lib/activity.ts).
    Several requests may be in flight at once, and the caller's handlers may stop
    the poller or throw.  The poller's visible effects form a trace; safety is
    stated on traces, for every interleaving of ticks, answers, failures and stops. */
module ScopePoller {
  import opened Options

  datatype Status =
    | ScopeRequired | Collecting | AwaitingBrowser | Paused | Cancelling
    | Cancelled | ReviewRequired | Approved | Rejected | Failed

  predicate IsActive(status: Option<Status>) {
    status == Some(Collecting) || status == Some(AwaitingBrowser) || status == Some(Paused) || status == Some(Cancelling)
  }

  /** What a handler does when it is called: it may call stop, and it may throw afterwards. */
  datatype Reaction = Reaction(stops: bool, throws: bool)

  datatype Effect =
    | OnResponse(status: Option<Status>, reaction: Reaction)
    | OnError
    | Abort
    | CancelTimer

  predicate IsCallback(e: Effect) {
    e.OnResponse? || e.OnError?
  }

  // ----- The protocol on traces -----

  datatype Trace = Trace(stopped: bool, armed: bool, effects: seq<Effect>)

  /** Stopping acts once: it aborts, and cancels the timer if there is one. */
  function Stop(t: Trace): Trace {
    if t.stopped then t
    else Trace(true, false, t.effects + [Abort] + if t.armed then [CancelTimer] else [])
  }

  function Emit(t: Trace, e: Effect): Trace {
    t.(effects := t.effects + [e])
  }

  function ReportError(t: Trace, stops: bool): Trace {
    if t.stopped then t
    else if stops then Stop(Emit(t, OnError)) else Emit(t, OnError)
  }

  /** A response of a live poller: the handler runs; if it returns, a non-active status stops the
      poller; if it throws, the error handler runs instead unless the poller was stopped. */
  function Respond(t: Trace, status: Option<Status>, reaction: Reaction, errorStops: bool): Trace {
    if t.stopped then t
    else
      var called := Emit(t, OnResponse(status, reaction));
      var handled := if reaction.stops then Stop(called) else called;
      if reaction.throws then ReportError(handled, errorStops)
      else if !IsActive(status) then Stop(handled) else handled
  }

  ghost predicate PollStep(a: Trace, b: Trace) {
    || b == a
    || b == Stop(a)
    || (exists stops :: b == ReportError(a, stops))
    || (exists status, reaction, errorStops :: b == Respond(a, status, reaction, errorStops))
  }

  /** A response is conclusive unless its handler throws without having stopped the poller. */
  predicate Conclusive(e: Effect) {
    e.OnResponse? && !IsActive(e.status) && (e.reaction.stops || !e.reaction.throws)
  }

  /** A response whose handler throws without stopping. */
  predicate Thrown(e: Effect) {
    e.OnResponse? && e.reaction.throws && !e.reaction.stops
  }

  predicate FollowedByError(effects: seq<Effect>, i: nat) {
    i + 1 < |effects| && effects[i + 1] == OnError
  }

  /** A run of callbacks: a thrown response is followed by the error handler,
      and only the last may be conclusive, and only once the poller is stopping. */
  ghost predicate Callbacks(body: seq<Effect>, stopping: bool) {
    forall i :: 0 <= i < |body| ==>
      && IsCallback(body[i])
      && (Thrown(body[i]) ==> FollowedByError(body, i))
      && (Conclusive(body[i]) ==> stopping && i == |body| - 1)
  }

  function Ending(armed: bool): seq<Effect> {
    [Abort] + if armed then [CancelTimer] else []
  }

  ghost predicate EndsAfter(effects: seq<Effect>, body: seq<Effect>, armed: bool) {
    Callbacks(body, true) && effects == body + Ending(armed)
  }

  /** Every trace is a run of callbacks, closed by one abort, and one cancellation if the poller repeats, exactly when
      stopped; until then the timer of a repeating poller is armed. */
  ghost predicate Shaped(t: Trace, repeat: bool) {
    if t.stopped then !t.armed && exists body :: EndsAfter(t.effects, body, repeat)
    else t.armed == repeat && Callbacks(t.effects, false)
  }

  lemma StopShaped(t: Trace, repeat: bool)
    requires !t.stopped && t.armed == repeat && Callbacks(t.effects, true)
    ensures Shaped(Stop(t), repeat)
  {
    assert EndsAfter(Stop(t).effects, t.effects, repeat);
  }

  lemma CallbackAdded(body: seq<Effect>, e: Effect)
    requires Callbacks(body, false) && IsCallback(e)
    ensures !Thrown(e) ==> Callbacks(body + [e], true)
    ensures !Thrown(e) && !Conclusive(e) ==> Callbacks(body + [e], false)
    ensures Thrown(e) ==> Callbacks(body + [e] + [OnError], false)
  {
  }

  lemma ErrorShaped(t: Trace, repeat: bool, stops: bool)
    requires Shaped(t, repeat)
    ensures Shaped(ReportError(t, stops), repeat)
  {
    if !t.stopped {
      CallbackAdded(t.effects, OnError);
      if stops {
        StopShaped(Emit(t, OnError), repeat);
      }
    }
  }

  lemma RespondShaped(t: Trace, repeat: bool, status: Option<Status>, reaction: Reaction, errorStops: bool)
    requires Shaped(t, repeat)
    ensures Shaped(Respond(t, status, reaction, errorStops), repeat)
  {
    if !t.stopped {
      var e := OnResponse(status, reaction);
      CallbackAdded(t.effects, e);
      if Thrown(e) {
        if errorStops {
          StopShaped(Emit(Emit(t, e), OnError), repeat);
        }
      } else if reaction.stops || !IsActive(status) {
        StopShaped(Emit(t, e), repeat);
      }
    }
  }

  lemma StepShaped(a: Trace, b: Trace, repeat: bool)
    requires Shaped(a, repeat) && PollStep(a, b)
    ensures Shaped(b, repeat)
  {
    if b == Stop(a) {
      if !a.stopped {
        StopShaped(a, repeat);
      }
    } else if b != a {
      if stops :| b == ReportError(a, stops) {
        ErrorShaped(a, repeat, stops);
      } else {
        var status, reaction, errorStops :| b == Respond(a, status, reaction, errorStops);
        RespondShaped(a, repeat, status, reaction, errorStops);
      }
    }
  }

  ghost predicate IsRun(repeat: bool, run: seq<Trace>) {
    && run != [] && run[0] == Trace(false, repeat, [])
    && forall i :: 0 < i < |run| ==> PollStep(run[i - 1], run[i])
  }

  lemma {:induction false} RunShaped(repeat: bool, run: seq<Trace>, i: nat)
    requires IsRun(repeat, run) && i < |run|
    ensures Shaped(run[i], repeat)
  {
    if i == 0 {
    } else {
      RunShaped(repeat, run, i - 1);
      StepShaped(run[i - 1], run[i], repeat);
    }
  }

  /** Over every run: no callback fires after the stop, and the timer is cancelled at most once, namely by the stop
      of a poller that repeats. */
  lemma NothingAfterStop(repeat: bool, run: seq<Trace>, n: nat, i: nat, j: nat)
    requires IsRun(repeat, run) && n < |run| && i < j < |run[n].effects|
    ensures run[n].effects[i] == Abort ==> !IsCallback(run[n].effects[j])
    ensures run[n].effects[i] == CancelTimer ==> run[n].effects[j] != CancelTimer
    ensures run[n].stopped <==> Abort in run[n].effects
    ensures run[n].stopped && repeat <==> CancelTimer in run[n].effects
  {
    RunShaped(repeat, run, n);
    var t := run[n];
    if t.stopped {
      var body :| EndsAfter(t.effects, body, repeat);
      assert t.effects[|body|] == Abort && (repeat ==> t.effects[|body| + 1] == CancelTimer);
      assert forall k :: 0 <= k < |body| ==> t.effects[k] == body[k];
    }
  }

  /** Over every run: a non-active response is the last callback exactly when its handler returned
      or stopped the poller itself; otherwise the error handler is called right after it. */
  lemma ConclusiveIsLast(repeat: bool, run: seq<Trace>, n: nat, i: nat)
    requires IsRun(repeat, run) && n < |run| && i < |run[n].effects|
    requires run[n].effects[i].OnResponse?
    requires run[n].effects[i].status !in {Some(Collecting), Some(AwaitingBrowser), Some(Paused), Some(Cancelling)}
    ensures var e := run[n].effects[i];
            (e.reaction.stops || !e.reaction.throws) <==>
              forall j :: i < j < |run[n].effects| ==> !run[n].effects[j].OnResponse? && !run[n].effects[j].OnError?
    ensures var e := run[n].effects[i];
            !e.reaction.stops && e.reaction.throws ==> i + 1 < |run[n].effects| && run[n].effects[i + 1] == OnError
  {
    RunShaped(repeat, run, n);
    var t := run[n];
    var e := t.effects[i];
    assert Thrown(e) <==> !Conclusive(e);
    assert forall k :: 0 <= k < |t.effects| ==> (IsCallback(t.effects[k]) <==> t.effects[k].OnResponse? || t.effects[k].OnError?);
    if t.stopped {
      var body :| EndsAfter(t.effects, body, repeat);
      assert forall k :: |body| <= k < |t.effects| ==> !IsCallback(t.effects[k]);
      assert i < |body| && body[i] == e;
      if Thrown(e) {
        assert FollowedByError(body, i) && t.effects[i + 1] == body[i + 1];
      }
    } else {
      assert Thrown(e) ==> FollowedByError(t.effects, i);
    }
  }

  /** A non-active response whose handler throws does not end the polling: the error handler is
      called after it, and a later response is still delivered. */
  lemma ThrowingHandlerKeepsPolling()
    ensures var bad := Respond(Trace(false, true, []), Some(Approved), Reaction(false, true), false);
            var more := Respond(bad, Some(Approved), Reaction(false, false), false);
            && !bad.stopped && bad.effects == [OnResponse(Some(Approved), Reaction(false, true)), OnError]
            && |more.effects| > 2 && IsCallback(more.effects[2])
  {
    var bad := Respond(Trace(false, true, []), Some(Approved), Reaction(false, true), false);
    var more := Respond(bad, Some(Approved), Reaction(false, false), false);
    assert more.effects[2] == OnResponse(Some(Approved), Reaction(false, false));
  }

  // ----- The poller -----

  class Poller {
    var timer: Option<nat>
    var stopped: bool
    var aborted: bool
    var inFlight: nat
    ghost var effects: seq<Effect>

    ghost predicate Valid()
      reads this
    {
      aborted == stopped && (stopped ==> timer.None?)
    }

    ghost function View(): Trace
      reads this
    {
      Trace(stopped, timer.Some?, effects)
    }

    /** Arms the timer when repeating, and asks once right away. */
    constructor (repeat: bool, handle: nat)
      ensures Valid() && View() == Trace(false, repeat, []) && inFlight == 1
    {
      timer := if repeat then Some(handle) else None;
      stopped, aborted, inFlight, effects := false, false, 1, [];
    }

    method StopPolling()
      requires Valid()
      modifies this
      ensures Valid() && View() == Stop(old(View())) && inFlight == old(inFlight) && stopped
      ensures timer.None? && aborted
      ensures effects == old(effects) + if old(stopped) then [] else if old(timer).Some? then [Abort, CancelTimer] else [Abort]
    {
      if stopped {
        return;
      }
      stopped := true;
      aborted, effects := true, effects + [Abort];
      if timer.Some? {
        effects := effects + [CancelTimer];
        timer := None;
      }
    }

    /** The timer fires: another request goes out, whether or not earlier ones have been answered. */
    method Tick()
      requires Valid()
      modifies this`inFlight
      ensures Valid() && View() == old(View()) && inFlight == old(inFlight) + 1
    {
      inFlight := inFlight + 1;
    }

    /** Some request in flight is answered. */
    method Answered(status: Option<Status>, reaction: Reaction, errorStops: bool)
      requires Valid() && inFlight > 0
      modifies this
      ensures Valid() && View() == Respond(old(View()), status, reaction, errorStops) && inFlight == old(inFlight) - 1
      ensures old(stopped) ==> effects == old(effects)
      ensures !old(stopped) ==> |effects| > |old(effects)| && effects[|old(effects)|] == OnResponse(status, reaction)
      ensures !reaction.throws && status !in {Some(Collecting), Some(AwaitingBrowser), Some(Paused), Some(Cancelling)} ==> stopped
      ensures status in {Some(Collecting), Some(AwaitingBrowser), Some(Paused), Some(Cancelling)} && !old(stopped) ==>
                (stopped <==> reaction.stops || (reaction.throws && errorStops))
      ensures PollStep(old(View()), View())
    {
      inFlight := inFlight - 1;
      if stopped {
        return;
      }
      effects := effects + [OnResponse(status, reaction)];
      if reaction.stops {
        StopPolling();
      }
      if reaction.throws {
        if !stopped && !aborted {
          effects := effects + [OnError];
          if errorStops {
            StopPolling();
          }
        }
      } else if !IsActive(status) {
        StopPolling();
      }
    }

    /** Some request in flight fails, for instance because it was aborted. */
    method RequestFailed(errorStops: bool)
      requires Valid() && inFlight > 0
      modifies this
      ensures Valid() && View() == ReportError(old(View()), errorStops) && inFlight == old(inFlight) - 1
      ensures old(stopped) ==> effects == old(effects)
      ensures !old(stopped) ==> |effects| > |old(effects)| && effects[|old(effects)|] == OnError && stopped == errorStops
      ensures PollStep(old(View()), View())
    {
      inFlight := inFlight - 1;
      if !stopped && !aborted {
        effects := effects + [OnError];
        if errorStops {
          StopPolling();
        }
      }
    }
  }
}
