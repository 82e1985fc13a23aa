/** The state of one call and its transitions (src/voip/call/callstate.go). */
module CallState {
  import opened Wrappers

  datatype State = Initiating | Ringing | IncomingRinging | Connecting | Active | OnHold | Ended

  /** Times are in nanoseconds. */
  datatype StateData = StateData(
    state: State,
    connectedAt: Option<int>, acceptedAt: Option<int>, endedAt: Option<int>,
    audioMuted: bool, videoOff: bool, silenced: bool, endReason: string, durationSecs: int)

  datatype Transition =
    | OfferSent
    | OfferReceived(silenced: bool)
    | LocalAccepted
    | RemoteAccepted
    | LocalRejected(reason: string)
    | RemoteRejected(reason: string)
    | MediaConnected
    | Terminated(reason: string)
    | Hold
    | Resume
    | AudioMuteChanged(muted: bool)
    | VideoStateChanged(off: bool)

  function Outgoing(isVideo: bool): StateData {
    StateData(Initiating, None, None, None, false, !isVideo, false, "", 0)
  }

  function Incoming(isVideo: bool): StateData {
    StateData(IncomingRinging, None, None, None, false, !isVideo, false, "", 0)
  }

  /** The states a transition may start from. */
  predicate Allowed(s: State, t: Transition) {
    match t
    case OfferSent => s == Initiating
    case OfferReceived(_) => s == Initiating
    case RemoteAccepted => s == Ringing
    case LocalAccepted => s == IncomingRinging
    case RemoteRejected(_) => s == Ringing
    case LocalRejected(_) => s == IncomingRinging
    case MediaConnected => s == Connecting
    case Terminated(_) => s != Ended
    case Hold => s == Active
    case Resume => s == OnHold
    case AudioMuteChanged(_) => s == Active
    case VideoStateChanged(_) => s == Active
  }

  const SECOND := 1_000_000_000

  /** What an allowed transition does at time now. */
  function Moved(s: StateData, t: Transition, now: int, isVideo: bool): StateData {
    match t
    case OfferSent => s.(state := Ringing)
    case OfferReceived(silenced) => s.(state := IncomingRinging, silenced := silenced)
    case RemoteAccepted => s.(state := Connecting, acceptedAt := Some(now))
    case LocalAccepted => s.(state := Connecting, acceptedAt := Some(now))
    case RemoteRejected(reason) => s.(state := Ended, endedAt := Some(now), endReason := reason)
    case LocalRejected(reason) => s.(state := Ended, endedAt := Some(now), endReason := reason)
    case MediaConnected => s.(state := Active, connectedAt := Some(now), videoOff := !isVideo)
    case Terminated(reason) =>
      s.(state := Ended, endedAt := Some(now), endReason := reason,
         durationSecs := if (s.state == Active || s.state == OnHold) && s.connectedAt.Some?
                         then Seconds(now - s.connectedAt.value) else s.durationSecs)
    case Hold => s.(state := OnHold)
    case Resume => s.(state := Active)
    case AudioMuteChanged(muted) => s.(audioMuted := muted)
    case VideoStateChanged(off) => s.(videoOff := off)
  }

  /** A duration in whole seconds. */
  function Seconds(d: int): int {
    if d >= 0 then d / SECOND else -(-d / SECOND)
  }

  function Apply(s: StateData, t: Transition, now: int, isVideo: bool): StateData {
    if Allowed(s.state, t) then Moved(s, t, now, isVideo) else s
  }

  /** A call record. */
  class CallInfo {
    const isVideo: bool
    var state: State
    var connectedAt: Option<int>
    var acceptedAt: Option<int>
    var endedAt: Option<int>
    var audioMuted: bool
    var videoOff: bool
    var silenced: bool
    var endReason: string
    var durationSecs: int

    function View(): StateData
      reads this
    {
      StateData(state, connectedAt, acceptedAt, endedAt, audioMuted, videoOff, silenced, endReason, durationSecs)
    }

    constructor NewOutgoing(isVideo: bool)
      ensures View() == Outgoing(isVideo) && this.isVideo == isVideo
    {
      this.isVideo, state, audioMuted, videoOff := isVideo, Initiating, false, !isVideo;
      connectedAt, acceptedAt, endedAt, silenced, endReason, durationSecs := None, None, None, false, "", 0;
    }

    constructor NewIncoming(isVideo: bool)
      ensures View() == Incoming(isVideo) && this.isVideo == isVideo
    {
      this.isVideo, state, audioMuted, videoOff := isVideo, IncomingRinging, false, !isVideo;
      connectedAt, acceptedAt, endedAt, silenced, endReason, durationSecs := None, None, None, false, "", 0;
    }

    method ApplyTransition(t: Transition, now: int) returns (ok: bool)
      modifies this
      ensures ok == Allowed(old(state), t) && View() == Apply(old(View()), t, now, isVideo)
    {
      match t {
        case OfferSent =>
          if state != Initiating { return false; }
          state := Ringing;
        case OfferReceived(s) =>
          if state != Initiating { return false; }
          state := IncomingRinging;
          silenced := s;
        case RemoteAccepted =>
          if state != Ringing { return false; }
          state := Connecting;
          acceptedAt := Some(now);
        case LocalAccepted =>
          if state != IncomingRinging { return false; }
          state := Connecting;
          acceptedAt := Some(now);
        case RemoteRejected(reason) =>
          if state != Ringing { return false; }
          state := Ended;
          endedAt := Some(now);
          endReason := reason;
        case LocalRejected(reason) =>
          if state != IncomingRinging { return false; }
          state := Ended;
          endedAt := Some(now);
          endReason := reason;
        case MediaConnected =>
          if state != Connecting { return false; }
          state := Active;
          connectedAt := Some(now);
          videoOff := !isVideo;
        case Terminated(reason) =>
          if state == Ended { return false; }
          if (state == Active || state == OnHold) && connectedAt != None {
            durationSecs := Seconds(now - connectedAt.value);
          }
          state := Ended;
          endedAt := Some(now);
          endReason := reason;
        case Hold =>
          if state != Active { return false; }
          state := OnHold;
        case Resume =>
          if state != OnHold { return false; }
          state := Active;
        case AudioMuteChanged(muted) =>
          if state != Active { return false; }
          audioMuted := muted;
        case VideoStateChanged(off) =>
          if state != Active { return false; }
          videoOff := off;
      }
      return true;
    }
  }

  // ---- Every run of one call ----

  /** The record as it can be at time now. */
  predicate Consistent(s: StateData, now: int) {
    && (s.state in {Initiating, Ringing, IncomingRinging} ==> s.acceptedAt == s.connectedAt == s.endedAt == None)
    && (s.state == Connecting ==> s.acceptedAt.Some? && s.connectedAt == s.endedAt == None)
    && (s.state in {Active, OnHold} ==> s.acceptedAt.Some? && s.connectedAt.Some? && s.endedAt == None)
    && (s.state == Ended <==> s.endedAt.Some?)
    && (s.connectedAt.Some? ==> s.acceptedAt.Some?)
    && InOrder(s.acceptedAt, s.connectedAt) && InOrder(s.connectedAt, s.endedAt) && InOrder(s.acceptedAt, s.endedAt)
    && InOrder(s.acceptedAt, Some(now)) && InOrder(s.connectedAt, Some(now)) && InOrder(s.endedAt, Some(now))
    && s.durationSecs == if s.connectedAt.Some? && s.endedAt.Some?
                         then Seconds(s.endedAt.value - s.connectedAt.value) else 0
  }

  predicate InOrder(a: Option<int>, b: Option<int>) {
    a.Some? && b.Some? ==> a.value <= b.value
  }

  /** Transitions with the times they are tried at. */
  datatype Event = Event(t: Transition, at: int)

  /** The record after a run. */
  function Final(s: StateData, es: seq<Event>, isVideo: bool): StateData
    decreases |es|
  {
    if |es| == 0 then s
    else Apply(Final(s, es[..|es| - 1], isVideo), es[|es| - 1].t, es[|es| - 1].at, isVideo)
  }

  /** The clock does not run backward. */
  predicate Timed(from: int, es: seq<Event>) {
    && (|es| > 0 ==> from <= es[0].at)
    && forall i, j :: 0 <= i <= j < |es| ==> es[i].at <= es[j].at
  }

  function Last(from: int, es: seq<Event>): int {
    if |es| == 0 then from else es[|es| - 1].at
  }

  /** How often media connects: the only way into Active from Connecting. */
  function Connections(s: StateData, es: seq<Event>, isVideo: bool): nat
    decreases |es|
  {
    if |es| == 0 then 0
    else
      Connections(s, es[..|es| - 1], isVideo)
      + if es[|es| - 1].t.MediaConnected? && Allowed(Final(s, es[..|es| - 1], isVideo).state, MediaConnected)
        then 1 else 0
  }

  /** One transition keeps the record consistent, never leaves Ended and never changes a time that is set. */
  lemma StepKeeps(s: StateData, t: Transition, from: int, now: int, isVideo: bool)
    requires Consistent(s, from) && from <= now
    ensures var r := Apply(s, t, now, isVideo);
            && Consistent(r, now)
            && (s.state == Ended ==> r == s)
            && (s.acceptedAt.Some? ==> r.acceptedAt == s.acceptedAt)
            && (s.connectedAt.Some? ==> r.connectedAt == s.connectedAt)
            && (r.state == Active && s.state !in {Active, OnHold} ==> s.state == Connecting && t == MediaConnected)
  {
  }

  /** After any transitions at any times the times of a call are in order and its duration is the connected time. */
  lemma {:induction false} AlwaysConsistent(s: StateData, from: int, es: seq<Event>, isVideo: bool)
    requires Consistent(s, from) && Timed(from, es)
    ensures Consistent(Final(s, es, isVideo), Last(from, es))
    decreases |es|
  {
    hide Consistent, Apply;
    if |es| > 0 {
      var front := es[..|es| - 1];
      AlwaysConsistent(s, from, front, isVideo);
      StepKeeps(Final(s, front, isVideo), es[|es| - 1].t, Last(from, front), es[|es| - 1].at, isVideo);
    }
  }

  lemma StepConnects(s: StateData, t: Transition, from: int, now: int, isVideo: bool)
    requires Consistent(s, from)
    ensures Apply(s, t, now, isVideo).connectedAt.Some?
            <==> s.connectedAt.Some? || (t.MediaConnected? && Allowed(s.state, MediaConnected))
    ensures Allowed(s.state, MediaConnected) ==> s.connectedAt == None
  {
  }

  /** Media connects at most once in the life of a call, and then the call is no longer connecting. */
  lemma {:induction false} ConnectsOnce(s: StateData, from: int, es: seq<Event>, isVideo: bool)
    requires Consistent(s, from) && Timed(from, es) && s.connectedAt == None
    ensures Connections(s, es, isVideo) == if Final(s, es, isVideo).connectedAt.Some? then 1 else 0
    decreases |es|
  {
    hide Consistent, Apply, Allowed;
    if |es| > 0 {
      var front := es[..|es| - 1];
      ConnectsOnce(s, from, front, isVideo);
      AlwaysConsistent(s, from, front, isVideo);
      StepConnects(Final(s, front, isVideo), es[|es| - 1].t, Last(from, front), es[|es| - 1].at, isVideo);
    }
  }

  /** Once ended, a call stays exactly as it ended. */
  lemma {:induction false} EndedIsFinal(s: StateData, es: seq<Event>, isVideo: bool)
    requires s.state == Ended
    ensures Final(s, es, isVideo) == s
    decreases |es|
  {
    if |es| > 0 {
      EndedIsFinal(s, es[..|es| - 1], isVideo);
    }
  }
}
