// kernel/tasks/call_state.c: the state of the phone call, driven by commands posted to the
// call-state task. Each command is taken only in the states that allow it; taking it moves the
// state, may copy the caller id, and sets the event bits the task loop acts on.

module CallStateTask {
  import opened Wrappers
  import CStr

  /** `sizeof(ctx->caller_id)`, and of `CallData.caller_id`. */
  const CallerIdSize: int := 32
  /** The length the command queue is created with. */
  const QueueLength: int := 5

  const EventIncoming: bv32 := 1
  const EventAnswer: bv32 := 2
  const EventHangup: bv32 := 4
  const EventDisplay: bv32 := 8

  /** `CallState`. */
  datatype CallState = Idle | Ringing | Dialling | Active | Ending

  /** `CallCommand`. */
  datatype CallCommand = IncomingCall | AnswerCall | DialCall | HangupCall

  /** `CallMessage`: the command, and the caller id of the `CallData` it points to, if any. */
  datatype CallMessage = CallMessage(cmd: CallCommand, data: Option<seq<char>>)

  /** The screens `update_display` asks the display task for. */
  datatype DisplayCommand = IncomingCallScreen | ActiveCallScreen | CallEndedScreen | DiallingScreen

  /** A display post: the screen and the caller id sent with it (none for the ended call). */
  datatype DisplayPost = DisplayPost(screen: DisplayCommand, callerId: Option<seq<char>>)

  /** The states in which `process_call_command` takes a command. */
  predicate Enabled(s: CallState, cmd: CallCommand)
  {
    match cmd
    case IncomingCall => s == Idle || s == Ringing
    case AnswerCall => s == Ringing
    case DialCall => s == Idle
    case HangupCall => s != Idle
  }

  /** The state a taken command leaves. A hang-up passes through ENDING and ends in IDLE. */
  function Next(cmd: CallCommand): CallState
  {
    match cmd
    case IncomingCall => Ringing
    case AnswerCall => Active
    case DialCall => Dialling
    case HangupCall => Idle
  }

  /** The event bits a taken command sets. Dialling sets the ANSWER bit, as answering does. */
  function Bits(cmd: CallCommand): (b: bv32)
    ensures b & EventDisplay == EventDisplay
  {
    match cmd
    case IncomingCall => EventIncoming | EventDisplay
    case AnswerCall => EventAnswer | EventDisplay
    case DialCall => EventAnswer | EventDisplay
    case HangupCall => EventHangup | EventDisplay
  }

  /** The state after one command, taken or not. */
  function Step(s: CallState, cmd: CallCommand): (r: CallState)
    ensures r != Ending || s == Ending
    ensures r == Active <==> (s == Ringing && cmd == AnswerCall) || (s == Active && cmd != HangupCall)
    ensures cmd == HangupCall ==> r == Idle
  {
    if Enabled(s, cmd) then Next(cmd) else s
  }

  /** The state after a run of commands from `s`. */
  function Run(s: CallState, cmds: seq<CallCommand>): CallState
  {
    if cmds == [] then s else Step(Run(s, cmds[..|cmds| - 1]), cmds[|cmds| - 1])
  }

  /** A call is only ever active after it was answered while ringing: a run from IDLE that ends
    * ACTIVE holds an ANSWER taken in RINGING. */
  lemma {:induction false} ActiveOnlyAfterAnswer(cmds: seq<CallCommand>)
    requires Run(Idle, cmds) == Active
    ensures exists i :: 0 <= i < |cmds| && cmds[i] == AnswerCall && Run(Idle, cmds[..i]) == Ringing
  {
    var n := |cmds| - 1;
    var before := Run(Idle, cmds[..n]);
    if before == Active {
      ActiveOnlyAfterAnswer(cmds[..n]);
      var i :| 0 <= i < n && cmds[..n][i] == AnswerCall && Run(Idle, cmds[..n][..i]) == Ringing;
      assert cmds[..n][..i] == cmds[..i];
    } else {
      assert cmds[..n] == cmds[..n][..n];
    }
  }

  /** No run from IDLE ever rests in ENDING, the state a hang-up passes through. */
  lemma {:induction false} NeverRestsInEnding(cmds: seq<CallCommand>)
    ensures Run(Idle, cmds) != Ending
  {
    if cmds != [] {
      NeverRestsInEnding(cmds[..|cmds| - 1]);
    }
  }

  /** `update_display`: the screen for each state, with the caller id except for the ended
    * call, and nothing for IDLE. */
  function DisplayFor(s: CallState, callerId: seq<char>): (r: Option<DisplayPost>)
    ensures r.None? <==> s == Idle
    ensures r.Some? ==> (r.value.callerId.None? <==> s == Ending)
    ensures r.Some? && s != Ending ==> r.value.callerId == Some(callerId)
  {
    match s
    case Ringing => Some(DisplayPost(IncomingCallScreen, Some(callerId)))
    case Active => Some(DisplayPost(ActiveCallScreen, Some(callerId)))
    case Ending => Some(DisplayPost(CallEndedScreen, None))
    case Dialling => Some(DisplayPost(DiallingScreen, Some(callerId)))
    case Idle => None
  }

  /** Different states show different screens. */
  lemma DisplayForInjective(s1: CallState, s2: CallState, id: seq<char>)
    requires DisplayFor(s1, id) == DisplayFor(s2, id)
    ensures s1 == s2
  {
  }

  /** `CallStateContext`: the state, the event group's bits, the command queue (when it was
    * created), whether a display task is attached, and the caller id buffer. */
  class CallStateContext {
    var currentState: CallState
    var eventBits: bv32
    var hasQueue: bool
    var queue: seq<CallMessage>
    var hasDisplay: bool
    const callerId: array<char>

    ghost function CallerId(): seq<char>
      reads callerId
    {
      CStr.Text(callerId[..])
    }

    /** The caller id is a C string inside its 32 bytes; the queue holds at most 5 messages. */
    ghost predicate Valid()
      reads this, callerId
    {
      callerId.Length == CallerIdSize && CStr.StrLen(callerId[..]) < CallerIdSize && |queue| <= QueueLength
    }

    /** `CallState_Init(display)` once the event group, queue and task exist: IDLE, no bits, an
      * empty queue and a zeroed caller id. */
    constructor (hasDisplay: bool)
      ensures Valid() && fresh(callerId)
      ensures currentState == Idle && eventBits == 0 && hasQueue && queue == [] && this.hasDisplay == hasDisplay
      ensures CallerId() == []
    {
      currentState := Idle;
      eventBits := 0;
      hasQueue := true;
      queue := [];
      this.hasDisplay := hasDisplay;
      callerId := new char[CallerIdSize](_ => CStr.NUL);
      new;
      CStr.TextOfCopy(callerId[..], []);
    }

    /** The caller id copy of INCOMING and DIALLING: at most 31 characters, then a NUL. */
    method CopyCallerId(data: seq<char>)
      requires Valid() && |data| == CallerIdSize
      modifies callerId
      ensures Valid()
      ensures CallerId() == CStr.Truncate(CStr.Text(data), CallerIdSize - 1)
      ensures callerId[CallerIdSize - 1] == CStr.NUL
    {
      CStr.Strncpy(callerId, data, CallerIdSize - 1);
      callerId[CallerIdSize - 1] := CStr.NUL;
      CStr.TextOfTruncatedCopy(callerId[..], data, CallerIdSize - 1);
    }

    /** `process_call_command(ctx, msg)`: a command the state allows moves it as `Step` says and
      * sets its bits, INCOMING and DIALLING copying the caller id they carry; any other command
      * changes nothing. */
    method ProcessCommand(msg: CallMessage)
      requires Valid() && (msg.data.Some? ==> |msg.data.value| == CallerIdSize)
      modifies this, callerId
      ensures Valid() && queue == old(queue) && hasQueue == old(hasQueue) && hasDisplay == old(hasDisplay)
      ensures currentState == Step(old(currentState), msg.cmd)
      ensures eventBits == if Enabled(old(currentState), msg.cmd) then old(eventBits) | Bits(msg.cmd) else old(eventBits)
      ensures if Enabled(old(currentState), msg.cmd) && (msg.cmd == IncomingCall || msg.cmd == DialCall) && msg.data.Some?
              then CallerId() == CStr.Truncate(CStr.Text(msg.data.value), CallerIdSize - 1)
              else callerId[..] == old(callerId[..])
    {
      match msg.cmd {
        case IncomingCall =>
          if currentState == Idle || currentState == Ringing {
            currentState := Ringing;
            if msg.data.Some? {
              CopyCallerId(msg.data.value);
            }
            eventBits := eventBits | EventIncoming | EventDisplay;
          }
        case AnswerCall =>
          if currentState == Ringing {
            currentState := Active;
            eventBits := eventBits | EventAnswer | EventDisplay;
          }
        case DialCall =>
          if currentState == Idle {
            currentState := Dialling;
            if msg.data.Some? {
              CopyCallerId(msg.data.value);
            }
            eventBits := eventBits | EventAnswer | EventDisplay;
          }
        case HangupCall =>
          if currentState != Idle {
            currentState := Ending;
            eventBits := eventBits | EventHangup | EventDisplay;
            currentState := Idle;
          }
      }
    }

    /** `update_display(ctx)`: the post for the current state, when a display task is attached. */
    method UpdateDisplay() returns (post: Option<DisplayPost>)
      requires Valid()
      ensures post == if hasDisplay then DisplayFor(currentState, CallerId()) else None
      ensures post.Some? ==> hasDisplay && currentState != Idle
    {
      if !hasDisplay {
        return None;
      }
      match currentState {
        case Ringing => post := Some(DisplayPost(IncomingCallScreen, Some(CStr.Text(callerId[..]))));
        case Active => post := Some(DisplayPost(ActiveCallScreen, Some(CStr.Text(callerId[..]))));
        case Ending => post := Some(DisplayPost(CallEndedScreen, None));
        case Dialling => post := Some(DisplayPost(DiallingScreen, Some(CStr.Text(callerId[..]))));
        case Idle => post := None;
      }
    }
  }

  /** `CallState_SetDisplayContext(ctx, display)`: ignored without a context. */
  method SetDisplayContext(ctx: CallStateContext?, hasDisplay: bool)
    modifies ctx
    ensures ctx != null ==>
      ctx.hasDisplay == hasDisplay && ctx.currentState == old(ctx.currentState) &&
      ctx.queue == old(ctx.queue) && ctx.eventBits == old(ctx.eventBits) && ctx.hasQueue == old(ctx.hasQueue)
  {
    if ctx != null {
      ctx.hasDisplay := hasDisplay;
    }
  }

  /** `CallState_PostCommand(ctx, cmd, data)`: false without a context or a queue; otherwise the
    * message is queued when there is room. Waiting for room is not modelled. */
  method PostCommand(ctx: CallStateContext?, cmd: CallCommand, data: Option<seq<char>>) returns (ok: bool)
    modifies ctx
    ensures ok ==> ctx != null && old(ctx.hasQueue) && |old(ctx.queue)| < QueueLength
    ensures ctx != null ==> (ok <==> old(ctx.hasQueue) && |old(ctx.queue)| < QueueLength)
    ensures ctx != null ==>
      ctx.queue == (if ok then old(ctx.queue) + [CallMessage(cmd, data)] else old(ctx.queue)) &&
      ctx.currentState == old(ctx.currentState) && ctx.eventBits == old(ctx.eventBits) &&
      ctx.hasQueue == old(ctx.hasQueue) && ctx.hasDisplay == old(ctx.hasDisplay)
  {
    if ctx == null || !ctx.hasQueue {
      return false;
    }
    if |ctx.queue| < QueueLength {
      ctx.queue := ctx.queue + [CallMessage(cmd, data)];
      ok := true;
    } else {
      ok := false;
    }
  }

  /** `CallState_GetCurrentState(ctx)`: IDLE without a context. */
  function GetCurrentState(ctx: CallStateContext?): (s: CallState)
    reads ctx
    ensures ctx == null ==> s == Idle
    ensures ctx != null ==> s == ctx.currentState
  {
    if ctx == null then Idle else ctx.currentState
  }
}
