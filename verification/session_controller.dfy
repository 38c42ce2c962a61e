/**
 * The back-end controller (api/controllers/sessionController.js): one
 * module-level state with the session, the participants, the rooms and
 * two history stacks, plus the round clock `timer`. Every command that
 * succeeds records the state it leaves behind on the undo stack.
 *
 * `state.session` starts as `null` and no command assigns it, so every
 * command that writes a session field throws a `TypeError` before it
 * changes anything; `NoSession` reports that outcome.
 */
module Backend {
  import opened Models

  /** Seconds in a round: 2 minutes 10 seconds. */
  const ROUND_DURATION: nat := 130

  /**
   * One history entry: copies of the session, the rooms and the
   * participants. A copy of a `null` session (`{ ...null }`) holds no
   * session fields, recorded as `None`.
   */
  datatype Snapshot = Snapshot(session: Option<Session>, rooms: seq<Room>, participants: seq<Participant>)

  /** How a command ended: normally, or with a `TypeError` on the `null` session. */
  datatype Outcome = Done | NoSession

  /** What `getState()` returns: the state's fields together with the timer. */
  datatype StateView = StateView(
    session: Option<Session>,
    participants: seq<Participant>,
    rooms: seq<Room>,
    undoStack: seq<Snapshot>,
    redoStack: seq<Snapshot>,
    timer: int)

  class SessionController {
    var session: Option<Session>
    var participants: seq<Participant>
    var rooms: seq<Room>
    var undoStack: seq<Snapshot>
    var redoStack: seq<Snapshot>
    var timer: int

    /** The part of the state a history entry copies: everything but the timer and the stacks. */
    function Current(): Snapshot
      reads this
    {
      Snapshot(session, rooms, participants)
    }

    /**
     * The controller's invariant: the timer is within a round, the redo
     * stack is empty, and the newest history entry is the live state.
     */
    ghost predicate Valid()
      reads this
    {
      && 0 <= timer <= ROUND_DURATION
      && redoStack == []
      && (undoStack != [] ==> undoStack[|undoStack| - 1] == Current())
    }

    /** The module's initial state: no session, nothing in the arrays or the stacks, a full timer. */
    constructor()
      ensures Valid()
      ensures session == None && participants == [] && rooms == []
      ensures undoStack == [] && redoStack == []
      ensures timer == ROUND_DURATION
    {
      session := None;
      participants := [];
      rooms := [];
      undoStack := [];
      redoStack := [];
      timer := ROUND_DURATION;
    }

    /** `pushToHistory`: the undo stack grows by a copy of the live state; the redo stack is emptied. */
    method PushToHistory()
      modifies this
      ensures undoStack == old(undoStack) + [old(Current())]
      ensures redoStack == []
      ensures session == old(session) && rooms == old(rooms) && participants == old(participants)
      ensures timer == old(timer)
    {
      undoStack := undoStack + [Snapshot(session, rooms, participants)];
      redoStack := [];
    }

    /**
     * `startSession`: the session runs from `now` and the new state is
     * recorded. Starting the interval is not part of the model.
     */
    method StartSession(now: Timestamp) returns (outcome: Outcome)
      requires Valid()
      modifies this
      ensures Valid()
      ensures old(session).None? ==> outcome == NoSession && unchanged(this)
      ensures old(session).Some? ==>
        && outcome == Done
        && session == Some(old(session).value.(isRunning := true, startTime := now))
        && undoStack == old(undoStack) + [Current()]
      ensures rooms == old(rooms) && participants == old(participants) && timer == old(timer)
    {
      if session.None? {
        return NoSession;
      }
      session := Some(session.value.(isRunning := true));
      session := Some(session.value.(startTime := now));
      PushToHistory();
      outcome := Done;
    }

    /** `pauseSession`: the session stops and the new state is recorded. */
    method PauseSession() returns (outcome: Outcome)
      requires Valid()
      modifies this
      ensures Valid()
      ensures old(session).None? ==> outcome == NoSession && unchanged(this)
      ensures old(session).Some? ==>
        && outcome == Done
        && session == Some(old(session).value.(isRunning := false))
        && undoStack == old(undoStack) + [Current()]
      ensures rooms == old(rooms) && participants == old(participants) && timer == old(timer)
    {
      if session.None? {
        return NoSession;
      }
      session := Some(session.value.(isRunning := false));
      PushToHistory();
      outcome := Done;
    }

    /**
     * `resetTimer`: a full timer, and one history entry, which equals the
     * unchanged session, rooms and participants. It never touches the
     * session, so it succeeds even without one.
     */
    method ResetTimer()
      requires Valid()
      modifies this
      ensures Valid()
      ensures timer == ROUND_DURATION
      ensures undoStack == old(undoStack) + [old(Current())]
      ensures session == old(session) && rooms == old(rooms) && participants == old(participants)
    {
      timer := ROUND_DURATION;
      PushToHistory();
    }

    /** `rotateParticipants`: an empty stub in this file, so nothing changes. */
    method RotateParticipants()
      modifies this
      ensures unchanged(this)
    {
    }

    /** `endSession(roomId)`: an empty stub in this file, so nothing changes. */
    method EndSession(roomId: string)
      modifies this
      ensures unchanged(this)
    {
    }

    /**
     * `advanceRound`: the (stub) rotation, the next round, a full timer,
     * and the new state recorded. Announcing the round to the clients is
     * not part of the model.
     */
    method AdvanceRound() returns (outcome: Outcome)
      requires Valid()
      modifies this
      ensures Valid()
      ensures old(session).None? ==> outcome == NoSession && unchanged(this)
      ensures old(session).Some? ==>
        && outcome == Done
        && session == Some(old(session).value.(currentRound := old(session).value.currentRound + 1))
        && timer == ROUND_DURATION
        && undoStack == old(undoStack) + [Current()]
      ensures rooms == old(rooms) && participants == old(participants)
    {
      RotateParticipants();
      if session.None? {
        return NoSession;
      }
      session := Some(session.value.(currentRound := session.value.currentRound + 1));
      timer := ROUND_DURATION;
      PushToHistory();
      outcome := Done;
    }

    /**
     * One run of the interval callback in `startTimer`: while the session
     * runs, the timer counts down, and at 0 the round advances; a stopped
     * session changes nothing.
     */
    method Tick() returns (outcome: Outcome)
      requires Valid()
      modifies this
      ensures Valid()
      ensures old(session).None? ==> outcome == NoSession && unchanged(this)
      ensures old(session).Some? && !old(session).value.isRunning ==> outcome == Done && unchanged(this)
      ensures old(session).Some? && old(session).value.isRunning && old(timer) > 0 ==>
        && outcome == Done
        && timer == old(timer) - 1
        && session == old(session) && undoStack == old(undoStack)
      ensures old(session).Some? && old(session).value.isRunning && old(timer) == 0 ==>
        && outcome == Done
        && session == Some(old(session).value.(currentRound := old(session).value.currentRound + 1))
        && timer == ROUND_DURATION
        && undoStack == old(undoStack) + [Current()]
      ensures rooms == old(rooms) && participants == old(participants)
    {
      if session.None? {
        return NoSession;
      }
      outcome := Done;
      if session.value.isRunning && timer > 0 {
        timer := timer - 1;
      } else if session.value.isRunning && timer == 0 {
        outcome := AdvanceRound();
      }
    }

    /** `getState()`: a view of the state with the timer; nothing changes and nothing is recorded. */
    method GetState() returns (view: StateView)
      ensures view.session == session && view.participants == participants && view.rooms == rooms
      ensures view.undoStack == undoStack && view.redoStack == redoStack && view.timer == timer
    {
      view := StateView(session, participants, rooms, undoStack, redoStack, timer);
    }
  }
}
