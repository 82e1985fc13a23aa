/**
 * The call manager at the grain of its lock (src/voip/call/callmanager.go and its companions): each
 * step is one critical section, and the goroutines and handlers that run them interleave in every
 * possible way.  A handler that unlocks and locks again is two steps with a token between them.
 */
module CallLifecycle {
  import opened Wrappers
  import opened CallState

  datatype Call = Call(data: StateData, isVideo: bool)

  /** stop is the stop channel of the send loop, -1 when there is none; open holds the channels not yet closed. */
  datatype Manager = Manager(
    calls: seq<Call>,
    current: int,
    codec: bool,
    stop: int,
    open: set<int>,
    started: nat,
    offers: nat,
    accepts: multiset<int>,
    cleanups: nat)

  datatype Step =
    | StartCall(isVideo: bool, codecOk: bool)
    | StartCallFailed
    | StartCallSent
    | HandleCallOffer(isVideo: bool, codecOk: bool)
    | AcceptCall(sameId: bool)
    | RejectCall(sameId: bool, reason: string)
    | EndCall(reason: string)
    | HandleCallTerminate(reason: string)
    | HandleCallAccept(call: int, hasConn: bool)
    | AcceptConnect(call: int)
    | RelayConnected
    | CleanupMedia

  const Idle := Manager([], -1, false, -1, {}, 0, 0, multiset{}, 0)

  predicate Has(m: Manager, c: int) {
    0 <= c < |m.calls|
  }

  function StateOf(m: Manager, c: int): State
    requires Has(m, c)
  {
    m.calls[c].data.state
  }

  /** call.ApplyTransition under the lock. */
  function Move(m: Manager, c: int, t: Transition, now: int): Manager
    requires Has(m, c)
  {
    var x := m.calls[c];
    m.(calls := m.calls[c := x.(data := Apply(x.data, t, now, x.isVideo))])
  }

  /** startMediaSendLoopLocked. */
  function StartLoop(m: Manager): Manager {
    if m.stop >= 0 || !m.codec then m
    else m.(stop := m.started, open := m.open + {m.started}, started := m.started + 1)
  }

  /** Media connects: the transition, and the send loop if it is allowed. */
  function Connect(m: Manager, c: int, now: int): Manager
    requires Has(m, c)
  {
    if Allowed(StateOf(m, c), MediaConnected) then StartLoop(Move(m, c, MediaConnected, now)) else m
  }

  function NewCall(m: Manager, call: Call, codecOk: bool): Manager {
    m.(calls := m.calls + [call], current := |m.calls|, codec := m.codec || codecOk)
  }

  /** Whether a step can be taken: second halves need their token, and handlers a call they once found current. */
  predicate Enabled(m: Manager, step: Step) {
    match step
    case StartCallFailed => m.offers > 0
    case StartCallSent => m.offers > 0
    case HandleCallAccept(c, _) => Has(m, c)
    case AcceptConnect(c) => c in m.accepts
    case CleanupMedia => m.cleanups > 0
    case _ => true
  }

  function Next(m: Manager, step: Step, now: int): Manager
    requires Enabled(m, step)
  {
    match step
    case StartCall(isVideo, codecOk) =>
      if Has(m, m.current) && StateOf(m, m.current) != Ended then m
      else NewCall(m, Call(Outgoing(isVideo), isVideo), codecOk).(offers := m.offers + 1)
    case StartCallFailed => m.(offers := m.offers - 1)
    case StartCallSent =>
      var n := m.(offers := m.offers - 1);
      if Has(n, n.current) then Move(n, n.current, OfferSent, now) else n
    case HandleCallOffer(isVideo, codecOk) => NewCall(m, Call(Incoming(isVideo), isVideo), codecOk)
    case AcceptCall(sameId) =>
      if !Has(m, m.current) || !sameId || StateOf(m, m.current) != IncomingRinging then m
      else Move(m, m.current, LocalAccepted, now)
    case RejectCall(sameId, reason) =>
      if !Has(m, m.current) || !sameId then m
      else Move(m, m.current, LocalRejected(reason), now).(cleanups := m.cleanups + 1)
    case EndCall(reason) =>
      if !Has(m, m.current) || StateOf(m, m.current) == Ended then m
      else Move(m, m.current, Terminated(reason), now).(cleanups := m.cleanups + 1)
    case HandleCallTerminate(reason) =>
      if !Has(m, m.current) then m
      else Move(m, m.current, Terminated(reason), now).(cleanups := m.cleanups + 1)
    case HandleCallAccept(c, hasConn) =>
      var n := Move(m, c, RemoteAccepted, now);
      if hasConn then n.(accepts := n.accepts + multiset{c}) else n
    case AcceptConnect(c) =>
      var n := m.(accepts := m.accepts - multiset{c});
      if Has(n, c) then Connect(n, c, now) else n
    case RelayConnected =>
      if Has(m, m.current) && StateOf(m, m.current) == Connecting then Connect(m, m.current, now) else m
    case CleanupMedia =>
      var n := m.(cleanups := m.cleanups - 1, codec := false);
      if m.stop >= 0 then n.(open := m.open - {m.stop}, stop := -1) else n
  }

  // ---- What every step keeps ----

  predicate Live(c: Call) {
    c.data.state == Active || c.data.state == OnHold
  }

  /** How many calls have ever had media. */
  function Connected(calls: seq<Call>): nat {
    if |calls| == 0 then 0
    else Connected(calls[..|calls| - 1]) + if calls[|calls| - 1].data.connectedAt.Some? then 1 else 0
  }

  predicate CallsConsistent(m: Manager, now: int) {
    -1 <= m.current < |m.calls| && forall c :: 0 <= c < |m.calls| ==> Consistent(m.calls[c].data, now)
  }

  /** The stop channel is the only one open, and there were no more loops than calls that got media. */
  predicate LoopsConsistent(m: Manager) {
    && -1 <= m.stop < m.started && m.open == (if m.stop >= 0 then {m.stop} else {})
    && m.started <= Connected(m.calls)
  }

  /** A running loop belongs to a live call, or is about to be stopped. */
  predicate LoopWanted(m: Manager) {
    m.open != {} ==> m.cleanups > 0 || exists c :: 0 <= c < |m.calls| && Live(m.calls[c])
  }

  predicate Inv(m: Manager, now: int) {
    CallsConsistent(m, now) && LoopsConsistent(m) && LoopWanted(m)
  }

  lemma {:induction false} ConnectedPush(calls: seq<Call>, x: Call)
    ensures Connected(calls + [x]) == Connected(calls) + if x.data.connectedAt.Some? then 1 else 0
  {
    assert (calls + [x])[..|calls|] == calls;
  }

  /** Changing one call changes the count by that call alone. */
  lemma {:induction false} ConnectedUpdate(calls: seq<Call>, c: nat, x: Call)
    requires c < |calls|
    ensures Connected(calls[c := x])
            == Connected(calls) + (if x.data.connectedAt.Some? then 1 else 0)
               - (if calls[c].data.connectedAt.Some? then 1 else 0)
    decreases |calls|
  {
    var n := |calls| - 1;
    if c == n {
      assert calls[c := x][..n] == calls[..n];
    } else {
      ConnectedUpdate(calls[..n], c, x);
      assert calls[c := x][..n] == calls[..n][c := x];
    }
  }

  /** A transition of one call. */
  lemma MoveKeeps(m: Manager, c: int, t: Transition, from: int, now: int)
    requires Has(m, c) && CallsConsistent(m, from) && from <= now
    ensures var n := Move(m, c, t, now);
            && CallsConsistent(n, now) && |n.calls| == |m.calls|
            && (forall k :: 0 <= k < |m.calls| && k != c ==> n.calls[k] == m.calls[k])
            && Connected(n.calls) == Connected(m.calls)
               + if t == MediaConnected && Allowed(StateOf(m, c), t) then 1 else 0
  {
    hide Consistent, Apply, Connected, Allowed;
    var x := m.calls[c];
    Later(m, from, now);
    StepKeeps(x.data, t, from, now, x.isVideo);
    StepConnects(x.data, t, from, now, x.isVideo);
    ConnectedUpdate(m.calls, c, x.(data := Apply(x.data, t, now, x.isVideo)));
  }

  /** Records stay consistent while time passes. */
  lemma Later(m: Manager, from: int, now: int)
    requires CallsConsistent(m, from) && from <= now
    ensures CallsConsistent(m, now)
  {
  }

  /** A transition that does not end a live call keeps the loop wanted. */
  lemma MoveWanted(m: Manager, c: int, t: Transition, now: int)
    requires Has(m, c) && LoopWanted(m)
    requires t.OfferSent? || t.LocalAccepted? || t.RemoteAccepted? || t.LocalRejected? || t.MediaConnected?
    ensures LoopWanted(Move(m, c, t, now))
  {
    var n := Move(m, c, t, now);
    if m.open != {} && m.cleanups == 0 {
      var k :| 0 <= k < |m.calls| && Live(m.calls[k]);
      assert Live(n.calls[k]);
    }
  }

  lemma ConnectKeeps(m: Manager, c: int, from: int, now: int)
    requires Has(m, c) && Inv(m, from) && from <= now
    ensures Inv(Connect(m, c, now), now)
  {
    hide Consistent, Connected;
    Later(m, from, now);
    if Allowed(StateOf(m, c), MediaConnected) {
      MoveKeeps(m, c, MediaConnected, from, now);
      MoveWanted(m, c, MediaConnected, now);
      assert Live(Move(m, c, MediaConnected, now).calls[c]);
    }
  }

  lemma CreateKeeps(m: Manager, call: Call, codecOk: bool, from: int, now: int)
    requires Inv(m, from) && from <= now && Consistent(call.data, now) && call.data.connectedAt == None
    ensures Inv(NewCall(m, call, codecOk), now)
  {
    hide Consistent, Connected;
    Later(m, from, now);
    ConnectedPush(m.calls, call);
    var n := NewCall(m, call, codecOk);
    if m.open != {} && m.cleanups == 0 {
      var k :| 0 <= k < |m.calls| && Live(m.calls[k]);
      assert Live(n.calls[k]);
    }
  }

  /** A transition that may end the call, followed by a request to clean up. */
  lemma EndKeeps(m: Manager, c: int, t: Transition, from: int, now: int)
    requires Has(m, c) && Inv(m, from) && from <= now && !t.MediaConnected?
    ensures Inv(Move(m, c, t, now).(cleanups := m.cleanups + 1), now)
  {
    hide Consistent, Connected;
    MoveKeeps(m, c, t, from, now);
  }

  lemma MoveOnKeeps(m: Manager, c: int, t: Transition, from: int, now: int)
    requires Has(m, c) && Inv(m, from) && from <= now
    requires t.OfferSent? || t.LocalAccepted? || t.RemoteAccepted?
    ensures Inv(Move(m, c, t, now), now)
  {
    hide Consistent, Connected;
    MoveKeeps(m, c, t, from, now);
    MoveWanted(m, c, t, now);
  }

  lemma TokensKeep(m: Manager, offers: nat, accepts: multiset<int>, from: int, now: int)
    requires Inv(m, from) && from <= now
    ensures Inv(m.(offers := offers, accepts := accepts), now)
  {
    hide Consistent, Connected;
    Later(m, from, now);
    var n := m.(offers := offers, accepts := accepts);
    if m.open != {} && m.cleanups == 0 {
      var k :| 0 <= k < |m.calls| && Live(m.calls[k]);
      assert Live(n.calls[k]);
    }
  }

  lemma NewCallsConsistent(isVideo: bool, now: int)
    ensures Consistent(Outgoing(isVideo), now) && Consistent(Incoming(isVideo), now)
  {
  }

  /** Every critical section, in any interleaving, keeps the invariant. */
  lemma NextKeeps(m: Manager, step: Step, from: int, now: int)
    requires Inv(m, from) && from <= now && Enabled(m, step)
    ensures Inv(Next(m, step, now), now)
  {
    hide Consistent, Connected, Move, StartLoop, Connect, NewCall, Inv, Outgoing, Incoming;
    TokensKeep(m, m.offers, m.accepts, from, now);
    match step
    case StartCall(isVideo, codecOk) => StartKeeps(m, isVideo, codecOk, from, now);
    case StartCallFailed => TokensKeep(m, m.offers - 1, m.accepts, from, now);
    case StartCallSent =>
      var n := m.(offers := m.offers - 1);
      TokensKeep(m, m.offers - 1, m.accepts, from, now);
      if Has(n, n.current) {
        MoveOnKeeps(n, n.current, OfferSent, now, now);
      }
    case HandleCallOffer(isVideo, codecOk) => OfferKeeps(m, isVideo, codecOk, from, now);
    case AcceptCall(sameId) =>
      if Has(m, m.current) {
        MoveOnKeeps(m, m.current, LocalAccepted, from, now);
      }
    case RejectCall(sameId, reason) =>
      if Has(m, m.current) {
        EndKeeps(m, m.current, LocalRejected(reason), from, now);
      }
    case EndCall(reason) =>
      if Has(m, m.current) {
        EndKeeps(m, m.current, Terminated(reason), from, now);
      }
    case HandleCallTerminate(reason) =>
      if Has(m, m.current) {
        EndKeeps(m, m.current, Terminated(reason), from, now);
      }
    case HandleCallAccept(c, hasConn) =>
      MoveOnKeeps(m, c, RemoteAccepted, from, now);
      var n := Move(m, c, RemoteAccepted, now);
      TokensKeep(n, n.offers, n.accepts + multiset{c}, now, now);
    case AcceptConnect(c) =>
      var n := m.(accepts := m.accepts - multiset{c});
      TokensKeep(m, m.offers, m.accepts - multiset{c}, from, now);
      if Has(n, c) {
        ConnectKeeps(n, c, now, now);
      }
    case RelayConnected =>
      if Has(m, m.current) {
        ConnectKeeps(m, m.current, from, now);
      }
    case CleanupMedia => CleanupKeeps(m, from, now);
  }

  lemma StartKeeps(m: Manager, isVideo: bool, codecOk: bool, from: int, now: int)
    requires Inv(m, from) && from <= now
    ensures Inv(Next(m, StartCall(isVideo, codecOk), now), now)
  {
    hide Consistent, Connected, NewCall, Inv;
    NewCallsConsistent(isVideo, now);
    TokensKeep(m, m.offers, m.accepts, from, now);
    var n := NewCall(m, Call(Outgoing(isVideo), isVideo), codecOk);
    CreateKeeps(m, Call(Outgoing(isVideo), isVideo), codecOk, from, now);
    TokensKeep(n, m.offers + 1, n.accepts, now, now);
  }

  lemma OfferKeeps(m: Manager, isVideo: bool, codecOk: bool, from: int, now: int)
    requires Inv(m, from) && from <= now
    ensures Inv(Next(m, HandleCallOffer(isVideo, codecOk), now), now)
  {
    hide Consistent, Connected, NewCall, Inv;
    NewCallsConsistent(isVideo, now);
    CreateKeeps(m, Call(Incoming(isVideo), isVideo), codecOk, from, now);
  }

  lemma CleanupKeeps(m: Manager, from: int, now: int)
    requires Inv(m, from) && from <= now && m.cleanups > 0
    ensures Inv(Next(m, CleanupMedia, now), now) && Next(m, CleanupMedia, now).open == {}
  {
    hide Consistent, Connected;
    Later(m, from, now);
  }

  // ---- Every run ----

  datatype Timed = Timed(step: Step, at: int)

  /** A run that the tokens and the clock allow. */
  predicate Possible(m: Manager, from: int, run: seq<Timed>)
    decreases |run|
  {
    |run| > 0 ==> from <= run[0].at && Enabled(m, run[0].step)
                  && Possible(Next(m, run[0].step, run[0].at), run[0].at, run[1..])
  }

  function After(m: Manager, from: int, run: seq<Timed>): Manager
    requires Possible(m, from, run)
    decreases |run|
  {
    if |run| == 0 then m else After(Next(m, run[0].step, run[0].at), run[0].at, run[1..])
  }

  function Until(from: int, run: seq<Timed>): int
    decreases |run|
  {
    if |run| == 0 then from else Until(run[0].at, run[1..])
  }

  lemma IdleInv(now: int)
    ensures Inv(Idle, now)
  {
  }

  lemma {:induction false} RunKeeps(m: Manager, from: int, run: seq<Timed>)
    requires Inv(m, from) && Possible(m, from, run)
    ensures Inv(After(m, from, run), Until(from, run))
    decreases |run|
  {
    hide Inv, Next, Enabled;
    if |run| > 0 {
      NextKeeps(m, run[0].step, from, run[0].at);
      RunKeeps(Next(m, run[0].step, run[0].at), run[0].at, run[1..]);
    }
  }

  predicate AllEnded(m: Manager) {
    forall c :: 0 <= c < |m.calls| ==> m.calls[c].data.state == Ended
  }

  /**
   * From the start, in every interleaving: every call's times are in order, at most one send loop is
   * open, loops were started no more often than calls got media, and when every call has ended and
   * no clean-up is outstanding, no loop is open.
   */
  lemma EveryRun(from: int, run: seq<Timed>)
    requires Possible(Idle, from, run)
    ensures var m := After(Idle, from, run);
            && (forall c :: 0 <= c < |m.calls| ==> Consistent(m.calls[c].data, Until(from, run)))
            && |m.open| <= 1 && (m.stop >= 0 <==> m.open == {m.stop})
            && m.started <= Connected(m.calls) <= |m.calls|
            && (AllEnded(m) && m.cleanups == 0 ==> m.open == {})
  {
    hide Consistent, After, Possible;
    IdleInv(from);
    RunKeeps(Idle, from, run);
    ConnectedBound(After(Idle, from, run).calls);
    var m := After(Idle, from, run);
    if AllEnded(m) && m.cleanups == 0 {
      EndedQuiet(m);
    }
  }

  lemma EndedQuiet(m: Manager)
    requires LoopWanted(m) && AllEnded(m) && m.cleanups == 0
    ensures m.open == {}
  {
  }

  lemma {:induction false} ConnectedBound(calls: seq<Call>)
    ensures Connected(calls) <= |calls|
  {
    if |calls| > 0 {
      ConnectedBound(calls[..|calls| - 1]);
    }
  }

  lemma MoveElsewhere(m: Manager, k: int, t: Transition, now: int, c: int)
    requires Has(m, k) && Has(m, c) && StateOf(m, c) == Ended
    ensures Has(Move(m, k, t, now), c) && Move(m, k, t, now).calls[c] == m.calls[c]
  {
    hide Moved;
  }

  /** No step touches a call that has ended. */
  lemma EndedUntouched(m: Manager, step: Step, now: int, c: int)
    requires Enabled(m, step) && Has(m, c) && StateOf(m, c) == Ended
    ensures Has(Next(m, step, now), c) && Next(m, step, now).calls[c] == m.calls[c]
  {
    hide Move, Allowed;
    if Has(m, m.current) {
      var n := m.(offers := if m.offers > 0 then m.offers - 1 else 0);
      match step
      case StartCallSent => MoveElsewhere(n, n.current, OfferSent, now, c);
      case AcceptCall(_) => MoveElsewhere(m, m.current, LocalAccepted, now, c);
      case RejectCall(_, reason) => MoveElsewhere(m, m.current, LocalRejected(reason), now, c);
      case EndCall(reason) => MoveElsewhere(m, m.current, Terminated(reason), now, c);
      case HandleCallTerminate(reason) => MoveElsewhere(m, m.current, Terminated(reason), now, c);
      case RelayConnected => MoveElsewhere(m, m.current, MediaConnected, now, c);
      case _ =>
    }
    match step
    case HandleCallAccept(k, _) => MoveElsewhere(m, k, RemoteAccepted, now, c);
    case AcceptConnect(k) =>
      var n := m.(accepts := m.accepts - multiset{k});
      if Has(n, k) {
        MoveElsewhere(n, k, MediaConnected, now, c);
      }
    case _ =>
  }

  lemma {:induction false} EndedForever(m: Manager, from: int, run: seq<Timed>, c: int)
    requires Possible(m, from, run) && Has(m, c) && StateOf(m, c) == Ended
    ensures Has(After(m, from, run), c) && After(m, from, run).calls[c] == m.calls[c]
    decreases |run|
  {
    hide Next, Enabled;
    if |run| > 0 {
      EndedUntouched(m, run[0].step, run[0].at, c);
      EndedForever(Next(m, run[0].step, run[0].at), run[0].at, run[1..], c);
    }
  }

  /** No call is placed or offered. */
  predicate NoNewCalls(run: seq<Timed>) {
    forall i :: 0 <= i < |run| ==> !run[i].step.StartCall? && !run[i].step.HandleCallOffer?
  }

  predicate Cleans(run: seq<Timed>) {
    exists i :: 0 <= i < |run| && run[i].step.CleanupMedia?
  }

  /** With every call ended, only a clean-up can change the loop, and it stops it. */
  lemma EndedStep(m: Manager, step: Step, from: int, now: int)
    requires Inv(m, from) && from <= now && Enabled(m, step) && AllEnded(m)
    requires !step.StartCall? && !step.HandleCallOffer?
    ensures AllEnded(Next(m, step, now))
    ensures Next(m, step, now).open == if step.CleanupMedia? then {} else m.open
  {
    hide Consistent, Connected, Move, StartLoop;
    match step
    case CleanupMedia => CleanupKeeps(m, from, now);
    case HandleCallAccept(c, hasConn) => MoveEnded(m, c, RemoteAccepted, now);
    case StartCallSent =>
      var n := m.(offers := m.offers - 1);
      if Has(n, n.current) {
        MoveEnded(n, n.current, OfferSent, now);
      }
    case RejectCall(_, reason) =>
      if Has(m, m.current) {
        MoveEnded(m, m.current, LocalRejected(reason), now);
      }
    case HandleCallTerminate(reason) =>
      if Has(m, m.current) {
        MoveEnded(m, m.current, Terminated(reason), now);
      }
    case _ =>
  }

  lemma MoveEnded(m: Manager, c: int, t: Transition, now: int)
    requires Has(m, c) && StateOf(m, c) == Ended
    ensures Move(m, c, t, now) == m
  {
  }

  /** Once a clean-up has run after every call ended, no loop exists again until a new call. */
  lemma {:induction false} NoLoopAgain(m: Manager, from: int, run: seq<Timed>)
    requires Inv(m, from) && Possible(m, from, run) && AllEnded(m) && NoNewCalls(run)
    ensures AllEnded(After(m, from, run))
    ensures m.open == {} || Cleans(run) ==> After(m, from, run).open == {}
    decreases |run|
  {
    hide Inv, Next, Enabled, AllEnded;
    if |run| > 0 {
      var step, n := run[0].step, Next(m, run[0].step, run[0].at);
      NextKeeps(m, step, from, run[0].at);
      EndedStep(m, step, from, run[0].at);
      NoLoopAgain(n, run[0].at, run[1..]);
      if Cleans(run) && !step.CleanupMedia? {
        var i :| 0 <= i < |run| && run[i].step.CleanupMedia?;
        assert run[1..][i - 1].step.CleanupMedia?;
      }
    }
  }
}
