/**
 * What a call can do: the ordinary courses of src/voip/call/callstate.go from beginning to end, the
 * transitions that each state refuses, and a call of the manager from its first step to its last.
 */
module CallScenarios {
  import opened Wrappers
  import opened CallState
  import opened CallLifecycle

  // ---- One call ----

  lemma Then(s: StateData, es: seq<Event>, t: Transition, at: int, isVideo: bool)
    ensures Final(s, es + [Event(t, at)], isVideo) == Apply(Final(s, es, isVideo), t, at, isVideo)
  {
    hide Apply;
    assert (es + [Event(t, at)])[..|es|] == es;
  }

  /** A call that is placed, answered, connected and ended. */
  lemma OutgoingCourse(isVideo: bool, t1: int, t2: int, t3: int, t4: int, reason: string)
    requires t1 <= t2 <= t3 <= t4
    ensures var es := [Event(OfferSent, t1), Event(RemoteAccepted, t2), Event(MediaConnected, t3),
                       Event(Terminated(reason), t4)];
            var s := Outgoing(isVideo);
            && Final(s, es[..1], isVideo).state == Ringing && Final(s, es[..2], isVideo).state == Connecting
            && Final(s, es[..3], isVideo).state == Active
            && Final(s, es, isVideo)
               == StateData(Ended, Some(t3), Some(t2), Some(t4), false, !isVideo, false, reason,
                            (t4 - t3) / 1_000_000_000)
  {
    var s := Outgoing(isVideo);
    var e1 := [Event(OfferSent, t1)];
    var e2 := e1 + [Event(RemoteAccepted, t2)];
    var e3 := e2 + [Event(MediaConnected, t3)];
    var es := [Event(OfferSent, t1), Event(RemoteAccepted, t2), Event(MediaConnected, t3),
               Event(Terminated(reason), t4)];
    assert es[..1] == e1 && es[..2] == e2 && es[..3] == e3 && es == e3 + [Event(Terminated(reason), t4)];
    assert [] + e1 == e1;
    Then(s, [], OfferSent, t1, isVideo);
    Then(s, e1, RemoteAccepted, t2, isVideo);
    Then(s, e2, MediaConnected, t3, isVideo);
    Then(s, e3, Terminated(reason), t4, isVideo);
  }

  /** A call that is answered here, put on hold and taken back, muted, and ended. */
  lemma IncomingCourse(isVideo: bool, t1: int, t2: int, t3: int, t4: int, t5: int, t6: int, reason: string)
    requires t1 <= t2 <= t3 <= t4 <= t5 <= t6
    ensures var s := Incoming(isVideo);
            var es := [Event(LocalAccepted, t1), Event(MediaConnected, t2), Event(Hold, t3), Event(Resume, t4)];
            && Final(s, es[..1], isVideo).state == Connecting && Final(s, es[..2], isVideo).state == Active
            && Final(s, es[..3], isVideo).state == OnHold && Final(s, es, isVideo).state == Active
            && Final(s, es + [Event(AudioMuteChanged(true), t5)] + [Event(Terminated(reason), t6)], isVideo)
               == StateData(Ended, Some(t2), Some(t1), Some(t6), true, !isVideo, false, reason,
                            (t6 - t2) / 1_000_000_000)
  {
    hide Final, Apply;
    var s := Incoming(isVideo);
    var e1 := [Event(LocalAccepted, t1)];
    var e2 := e1 + [Event(MediaConnected, t2)];
    var e3 := e2 + [Event(Hold, t3)];
    var es := [Event(LocalAccepted, t1), Event(MediaConnected, t2), Event(Hold, t3), Event(Resume, t4)];
    assert es[..1] == e1 && es[..2] == e2 && es[..3] == e3 && es == e3 + [Event(Resume, t4)];
    assert [] + e1 == e1;
    Unheard(s, isVideo);
    Then(s, [], LocalAccepted, t1, isVideo);
    Then(s, e1, MediaConnected, t2, isVideo);
    Then(s, e2, Hold, t3, isVideo);
    Then(s, e3, Resume, t4, isVideo);
    Then(s, es, AudioMuteChanged(true), t5, isVideo);
    Then(s, es + [Event(AudioMuteChanged(true), t5)], Terminated(reason), t6, isVideo);
    IncomingSteps(isVideo, t1, t2);
    TalkingSteps(isVideo, t1, t2, t3, t4, t5, t6, reason);
  }

  lemma Unheard(s: StateData, isVideo: bool)
    ensures Final(s, [], isVideo) == s
  {
  }

  /** An incoming call's record once it is connected. */
  function Talking(isVideo: bool, state: State, t1: int, t2: int, muted: bool): StateData {
    StateData(state, Some(t2), Some(t1), None, muted, !isVideo, false, "", 0)
  }

  lemma IncomingSteps(isVideo: bool, t1: int, t2: int)
    ensures var a := Incoming(isVideo).(state := Connecting, acceptedAt := Some(t1));
            && Apply(Incoming(isVideo), LocalAccepted, t1, isVideo) == a
            && Apply(a, MediaConnected, t2, isVideo) == Talking(isVideo, Active, t1, t2, false)
  {
  }

  lemma TalkingSteps(isVideo: bool, t1: int, t2: int, t3: int, t4: int, t5: int, t6: int, reason: string)
    requires t2 <= t6
    ensures Apply(Talking(isVideo, Active, t1, t2, false), Hold, t3, isVideo) == Talking(isVideo, OnHold, t1, t2, false)
    ensures Apply(Talking(isVideo, OnHold, t1, t2, false), Resume, t4, isVideo)
            == Talking(isVideo, Active, t1, t2, false)
    ensures Apply(Talking(isVideo, Active, t1, t2, false), AudioMuteChanged(true), t5, isVideo)
            == Talking(isVideo, Active, t1, t2, true)
    ensures Apply(Talking(isVideo, Active, t1, t2, true), Terminated(reason), t6, isVideo)
            == StateData(Ended, Some(t2), Some(t1), Some(t6), true, !isVideo, false, reason, (t6 - t2) / 1_000_000_000)
  {
  }

  /** A call that either side turns down: it was never accepted or connected, and lasted no time. */
  lemma Rejections(isVideo: bool, t1: int, t2: int, reason: string)
    ensures Final(Outgoing(isVideo), [Event(OfferSent, t1), Event(RemoteRejected(reason), t2)], isVideo)
            == StateData(Ended, None, None, Some(t2), false, !isVideo, false, reason, 0)
    ensures Final(Incoming(isVideo), [Event(LocalRejected(reason), t2)], isVideo)
            == StateData(Ended, None, None, Some(t2), false, !isVideo, false, reason, 0)
  {
    var e1, r1 := [Event(OfferSent, t1)], [Event(LocalRejected(reason), t2)];
    assert [] + e1 == e1 && [] + r1 == r1;
    Then(Outgoing(isVideo), [], OfferSent, t1, isVideo);
    Then(Outgoing(isVideo), e1, RemoteRejected(reason), t2, isVideo);
    assert e1 + [Event(RemoteRejected(reason), t2)] == [Event(OfferSent, t1), Event(RemoteRejected(reason), t2)];
    Then(Incoming(isVideo), [], LocalRejected(reason), t2, isVideo);
  }

  /** What each state takes notice of; everything else leaves the record as it is, and is reported. */
  lemma Unmoved(s: StateData, t: Transition, now: int, isVideo: bool)
    requires match s.state
             case Initiating => !t.OfferSent? && !t.OfferReceived? && !t.Terminated?
             case Ringing => !t.RemoteAccepted? && !t.RemoteRejected? && !t.Terminated?
             case IncomingRinging => !t.LocalAccepted? && !t.LocalRejected? && !t.Terminated?
             case Connecting => !t.MediaConnected? && !t.Terminated?
             case Active => !t.Hold? && !t.AudioMuteChanged? && !t.VideoStateChanged? && !t.Terminated?
             case OnHold => !t.Resume? && !t.Terminated?
             case Ended => true
    ensures !Allowed(s.state, t) && Apply(s, t, now, isVideo) == s
  {
  }

  /** And where the transitions lead that a state does take notice of. */
  lemma MovesTo(s: StateData, t: Transition, now: int, isVideo: bool)
    ensures var r := Apply(s, t, now, isVideo);
            && (s.state == Initiating && t.OfferSent? ==> r == s.(state := Ringing))
            && (s.state == Initiating && t.OfferReceived? ==> r == s.(state := IncomingRinging, silenced := t.silenced))
            && (s.state == Active && t.VideoStateChanged? ==> r == s.(videoOff := t.off))
            && (s.state == Active && t.AudioMuteChanged? ==> r == s.(audioMuted := t.muted))
            && (s.state in {Initiating, Ringing, IncomingRinging, Connecting} && t.Terminated? ==>
                  r == s.(state := Ended, endedAt := Some(now), endReason := t.reason))
            && (s.state == OnHold && t.Terminated? && s.connectedAt.Some? && now >= s.connectedAt.value ==>
                  r == s.(state := Ended, endedAt := Some(now), endReason := t.reason,
                          durationSecs := (now - s.connectedAt.value) / 1_000_000_000))
  {
  }

  // ---- The manager ----

  /** A call record of the course above, at its second, third and last stage. */
  function Stage(isVideo: bool, state: State, t3: int, t4: int): StateData {
    StateData(state, if state == Active then Some(t4) else None, if state == Ringing then None else Some(t3), None,
              false, !isVideo, false, "", 0)
  }

  /**
   * A call placed, sent, accepted and connected has exactly one send loop; ending it leaves a record
   * with its times and its length, and the clean-up closes the loop.
   */
  lemma ManagerCourse(isVideo: bool, t1: int, t2: int, t3: int, t4: int, t5: int, t6: int, reason: string)
    requires t1 <= t2 <= t3 <= t4 <= t5 <= t6
    ensures var up := [Timed(StartCall(isVideo, true), t1), Timed(StartCallSent, t2),
                       Timed(HandleCallAccept(0, false), t3), Timed(RelayConnected, t4)];
            && Possible(Idle, t1, up)
            && After(Idle, t1, up).calls == [Call(Stage(isVideo, Active, t3, t4), isVideo)]
            && After(Idle, t1, up).open == {0} && After(Idle, t1, up).stop == 0
    ensures var up := [Timed(StartCall(isVideo, true), t1), Timed(StartCallSent, t2),
                       Timed(HandleCallAccept(0, false), t3), Timed(RelayConnected, t4)];
            var m := After(Idle, t1, up);
            var down := [Timed(EndCall(reason), t5), Timed(CleanupMedia, t6)];
            && Possible(m, t4, down)
            && After(m, t4, down).calls
               == [Call(StateData(Ended, Some(t4), Some(t3), Some(t5), false, !isVideo, false, reason,
                                  (t5 - t4) / 1_000_000_000), isVideo)]
            && After(m, t4, down).open == {} && After(m, t4, down).stop == -1 && After(m, t4, down).cleanups == 0
  {
    hide Next, Apply, Possible, After, Placed, Rang, Answered;
    var m1, m2, m3, m4 := Placed(isVideo), Rang(isVideo), Answered(isVideo, t3), Up(isVideo, t3, t4);
    CourseUp(isVideo, t1, t2, t3, t4);
    var a, b, c, d := Timed(StartCall(isVideo, true), t1), Timed(StartCallSent, t2),
                      Timed(HandleCallAccept(0, false), t3), Timed(RelayConnected, t4);
    assert [a] + [b, c, d] == [a, b, c, d] && [b] + [c, d] == [b, c, d] && [c] + [d] == [c, d] && [d] + [] == [d];
    NoSteps(m4, t4);
    OneStep(m3, t3, d, []);
    OneStep(m2, t2, c, [d]);
    OneStep(m1, t1, b, [c, d]);
    OneStep(Idle, t1, a, [b, c, d]);
    CourseDown(isVideo, t3, t4, t5, t6, reason);
    var e, f := Timed(EndCall(reason), t5), Timed(CleanupMedia, t6);
    assert [e] + [f] == [e, f] && [f] + [] == [f];
    var m5 := Next(m4, EndCall(reason), t5);
    NoSteps(Next(m5, CleanupMedia, t6), t6);
    OneStep(m5, t5, f, []);
    OneStep(m4, t4, e, [f]);
  }

  lemma OneStep(m: Manager, from: int, x: Timed, rest: seq<Timed>)
    requires from <= x.at && Enabled(m, x.step) && Possible(Next(m, x.step, x.at), x.at, rest)
    ensures Possible(m, from, [x] + rest)
    ensures After(m, from, [x] + rest) == After(Next(m, x.step, x.at), x.at, rest)
  {
    hide Next, Enabled;
    assert ([x] + rest)[1..] == rest;
  }

  lemma NoSteps(m: Manager, from: int)
    ensures Possible(m, from, []) && After(m, from, []) == m
  {
  }

  function Placed(isVideo: bool): Manager {
    Manager([Call(Outgoing(isVideo), isVideo)], 0, true, -1, {}, 0, 1, multiset{}, 0)
  }

  function Rang(isVideo: bool): Manager {
    Manager([Call(Stage(isVideo, Ringing, 0, 0), isVideo)], 0, true, -1, {}, 0, 0, multiset{}, 0)
  }

  function Answered(isVideo: bool, t3: int): Manager {
    Manager([Call(Stage(isVideo, Connecting, t3, 0), isVideo)], 0, true, -1, {}, 0, 0, multiset{}, 0)
  }

  function Up(isVideo: bool, t3: int, t4: int): Manager {
    Manager([Call(Stage(isVideo, Active, t3, t4), isVideo)], 0, true, 0, {0}, 1, 0, multiset{}, 0)
  }

  lemma CourseUp(isVideo: bool, t1: int, t2: int, t3: int, t4: int)
    ensures Enabled(Idle, StartCall(isVideo, true)) && Next(Idle, StartCall(isVideo, true), t1) == Placed(isVideo)
    ensures Enabled(Placed(isVideo), StartCallSent) && Next(Placed(isVideo), StartCallSent, t2) == Rang(isVideo)
    ensures Enabled(Rang(isVideo), HandleCallAccept(0, false))
    ensures Next(Rang(isVideo), HandleCallAccept(0, false), t3) == Answered(isVideo, t3)
    ensures Enabled(Answered(isVideo, t3), RelayConnected)
    ensures Next(Answered(isVideo, t3), RelayConnected, t4) == Up(isVideo, t3, t4)
  {
    hide Next, Placed, Rang, Answered, Up;
    Places(isVideo, t1);
    Rings(isVideo, t2);
    Answers(isVideo, t3);
    Connects(isVideo, t3, t4);
  }

  lemma Places(isVideo: bool, t1: int)
    ensures Next(Idle, StartCall(isVideo, true), t1) == Placed(isVideo)
  {
  }

  lemma Rings(isVideo: bool, t2: int)
    ensures Enabled(Placed(isVideo), StartCallSent) && Next(Placed(isVideo), StartCallSent, t2) == Rang(isVideo)
  {
  }

  lemma Answers(isVideo: bool, t3: int)
    ensures Enabled(Rang(isVideo), HandleCallAccept(0, false))
    ensures Next(Rang(isVideo), HandleCallAccept(0, false), t3) == Answered(isVideo, t3)
  {
  }

  lemma Connects(isVideo: bool, t3: int, t4: int)
    ensures Next(Answered(isVideo, t3), RelayConnected, t4) == Up(isVideo, t3, t4)
  {
    assert {} + {0} == {0};
  }

  lemma CourseDown(isVideo: bool, t3: int, t4: int, t5: int, t6: int, reason: string)
    requires t4 <= t5
    ensures var m := Up(isVideo, t3, t4);
            var ended := StateData(Ended, Some(t4), Some(t3), Some(t5), false, !isVideo, false, reason,
                                   (t5 - t4) / 1_000_000_000);
            && Enabled(m, EndCall(reason)) && Enabled(Next(m, EndCall(reason), t5), CleanupMedia)
            && Next(Next(m, EndCall(reason), t5), CleanupMedia, t6)
               == Manager([Call(ended, isVideo)], 0, false, -1, {}, 1, 0, multiset{}, 0)
  {
    assert {0} - {0} == {};
  }

  /** An incoming call that is answered here connects the same way, once. */
  lemma IncomingManagerCourse(isVideo: bool, t1: int, t2: int, t3: int)
    ensures var m1 := Next(Idle, HandleCallOffer(isVideo, true), t1);
            var m2 := Next(m1, AcceptCall(true), t2);
            var m3 := Next(m2, RelayConnected, t3);
            && StateOf(m1, 0) == IncomingRinging && StateOf(m2, 0) == Connecting && StateOf(m3, 0) == Active
            && m1.open == m2.open == {} && m3.open == {0}
            && Next(m3, RelayConnected, t3) == m3
  {
  }

  /** An accepted call with a connection connects through the handler's second half as well. */
  lemma AcceptCourse(isVideo: bool, t3: int, t4: int)
    ensures var m1 := Answered(isVideo, t3).(accepts := multiset{0});
            && Next(Rang(isVideo), HandleCallAccept(0, true), t3) == m1
            && Enabled(m1, AcceptConnect(0)) && Next(m1, AcceptConnect(0), t4) == Up(isVideo, t3, t4)
  {
    hide Next, Rang, Up;
    AcceptsLater(isVideo, t3);
    ConnectsLater(isVideo, t3, t4);
  }

  lemma AcceptsLater(isVideo: bool, t3: int)
    ensures Next(Rang(isVideo), HandleCallAccept(0, true), t3) == Answered(isVideo, t3).(accepts := multiset{0})
  {
    assert multiset{} + multiset{0} == multiset{0};
  }

  lemma ConnectsLater(isVideo: bool, t3: int, t4: int)
    ensures Enabled(Answered(isVideo, t3).(accepts := multiset{0}), AcceptConnect(0))
    ensures Next(Answered(isVideo, t3).(accepts := multiset{0}), AcceptConnect(0), t4) == Up(isVideo, t3, t4)
  {
    assert {} + {0} == {0};
    assert multiset{0} - multiset{0} == multiset{};
  }

  /** Steps of the manager that find nothing to do, and the ones that end the current call. */
  lemma ManagerCases(m: Manager, isVideo: bool, now: int, reason: string)
    requires Has(m, m.current)
    ensures StateOf(m, m.current) != Ended ==> Next(m, StartCall(isVideo, true), now) == m
    ensures StateOf(m, m.current) == Ended ==> Next(m, EndCall(reason), now) == m
    ensures StateOf(m, m.current) != IncomingRinging ==> Next(m, AcceptCall(true), now) == m
    ensures Next(m, AcceptCall(false), now) == m && Next(m, RejectCall(false, reason), now) == m
    ensures StateOf(m, m.current) != Connecting ==> Next(m, RelayConnected, now) == m
    ensures StateOf(m, m.current) != Ended ==>
              forall step :: step in {EndCall(reason), HandleCallTerminate(reason)} ==>
                StateOf(Next(m, step, now), m.current) == Ended && Next(m, step, now).cleanups == m.cleanups + 1
    ensures StateOf(m, m.current) == IncomingRinging ==>
              var n := Next(m, RejectCall(true, reason), now);
              StateOf(n, m.current) == Ended && n.cleanups == m.cleanups + 1
  {
  }
}
