/**
 * The session provider of the front end (src/context/SessionContext.tsx):
 * the state cells `session`, `rooms`, `participants`, `leaders` and
 * `timeRemaining`, and the commands that overwrite them. Commands run one
 * at a time; a state cell's updater sees the value the previous command
 * left in it.
 */
module SessionContext {
  import opened Models
  import opened Roster
  import opened Rotation
  import opened RoomClosing
  import opened MockData

  /** Seconds in a round: 2 minutes 10 seconds. */
  const ROUND_DURATION: nat := 130

  /**
   * The body of the `forEach` over rooms in `rotateParticipants`: the step
   * for `rooms[roomIndex]` on the working copy `updated`, overwriting the
   * pilot's, the copilot's and the next copilot's entries found by id.
   */
  method RotateRoomInPlace(rooms: seq<Room>, updated: seq<Participant>, roomIndex: nat) returns (result: seq<Participant>)
    requires roomIndex < |rooms|
    ensures result == RotateRoom(rooms, updated, roomIndex)
  {
    result := updated;
    var room := rooms[roomIndex];
    var roomParticipants := InRoom(result, room.id);
    var pilot := FindRole(roomParticipants, Pilot);
    var copilot := FindRole(roomParticipants, Copilot);
    if pilot.Some? && copilot.Some? {
      var nextRoomId := rooms[(roomIndex + 1) % |rooms|].id;
      var pilotIndex := IndexOfId(result, pilot.value.id);
      if 0 <= pilotIndex {
        result := result[pilotIndex := result[pilotIndex].(
          role := Observer, currentRoomId := nextRoomId, position := NextPosition(result, nextRoomId))];
      }
      var copilotIndex := IndexOfId(result, copilot.value.id);
      if 0 <= copilotIndex {
        result := result[copilotIndex := result[copilotIndex].(role := Pilot, position := 0)];
      }
      var nextCopilot := MinObserver(roomParticipants);
      if nextCopilot.Some? {
        var nextCopilotIndex := IndexOfId(result, nextCopilot.value.id);
        if 0 <= nextCopilotIndex {
          result := result[nextCopilotIndex := result[nextCopilotIndex].(role := Copilot, position := 1)];
        }
      }
    }
  }

  /**
   * The updater `rotateParticipants` passes to `setParticipants`: a copy
   * of the array, rewritten room by room in array order.
   */
  method RotateAll(rooms: seq<Room>, ps: seq<Participant>) returns (updated: seq<Participant>)
    ensures updated == Rotated(rooms, ps)
  {
    updated := ps;
    var roomIndex := 0;
    while roomIndex < |rooms|
      invariant 0 <= roomIndex <= |rooms|
      invariant updated == RotateUpTo(rooms, ps, roomIndex)
    {
      updated := RotateRoomInPlace(rooms, updated, roomIndex);
      roomIndex := roomIndex + 1;
    }
  }

  /**
   * The updater `endSession` passes to `setParticipants`: a copy of the
   * array in which each participant of the closing room, in array order,
   * is written over its own entry as an observer at the back of the next
   * active room in turn.
   */
  method RedistributeAll(ps: seq<Participant>, roomId: string, activeRooms: seq<Room>) returns (updated: seq<Participant>)
    requires |activeRooms| > 0
    ensures updated == Redistributed(ps, roomId, activeRooms)
  {
    var closing := InRoom(ps, roomId);
    updated := ps;
    var index := 0;
    while index < |closing|
      invariant 0 <= index <= |closing|
      invariant updated == MoveClosing(ps, closing, activeRooms, index)
    {
      var participant := closing[index];
      var targetRoom := activeRooms[index % |activeRooms|];
      var nextPosition := NextPosition(updated, targetRoom.id);
      var participantIndex := IndexOfId(updated, participant.id);
      if 0 <= participantIndex {
        updated := updated[participantIndex := participant.(
          currentRoomId := targetRoom.id, role := Observer, position := nextPosition)];
      }
      index := index + 1;
    }
  }

  class SessionProvider {
    var session: Session
    var rooms: seq<Room>
    var participants: seq<Participant>
    var leaders: seq<Leader>
    var timeRemaining: int

    /**
     * Participant ids are distinct, every participant is in an existing
     * room, and no room has two pilots or two copilots.
     */
    ghost predicate RosterValid()
      reads this
    {
      && UniqueIds(participants)
      && RoomRefsValid(rooms, participants)
      && RolesWellFormed(participants)
    }

    /** The provider's invariant: a valid roster, and a clock showing between 1 and 130 seconds. */
    ghost predicate Valid()
      reads this
    {
      RosterValid() && 0 < timeRemaining <= ROUND_DURATION
    }

    /** Mounting the provider: the seed data, round 0 started at `now`, not running, a full clock. */
    constructor(now: Timestamp)
      ensures Valid()
      ensures session == Session(0, now, None, false)
      ensures rooms == MockRooms() && participants == MockParticipants() && leaders == MockLeaders()
      ensures timeRemaining == ROUND_DURATION
    {
      var r, l, p := GenerateMockData();
      session := Session(0, now, None, false);
      timeRemaining := ROUND_DURATION;
      rooms := r;
      participants := p;
      leaders := l;
      MockParticipantsUniqueIds();
      MockRoomRefs();
      MockRolesWellFormed();
    }

    /** `startSession`: only `isRunning` changes, to true. */
    method StartSession()
      requires Valid()
      modifies this
      ensures Valid()
      ensures session == old(session).(isRunning := true)
      ensures rooms == old(rooms) && participants == old(participants) && leaders == old(leaders)
      ensures timeRemaining == old(timeRemaining)
    {
      session := session.(isRunning := true);
    }

    /** `pauseSession`: only `isRunning` changes, to false. */
    method PauseSession()
      requires Valid()
      modifies this
      ensures Valid()
      ensures session == old(session).(isRunning := false)
      ensures rooms == old(rooms) && participants == old(participants) && leaders == old(leaders)
      ensures timeRemaining == old(timeRemaining)
    {
      session := session.(isRunning := false);
    }

    /** `resetTimer`: a full clock in any state; nothing else changes. */
    method ResetTimer()
      requires Valid()
      modifies this
      ensures Valid()
      ensures timeRemaining == ROUND_DURATION
      ensures session == old(session)
      ensures rooms == old(rooms) && participants == old(participants) && leaders == old(leaders)
    {
      timeRemaining := ROUND_DURATION;
    }

    /**
     * `rotateParticipants`: one pass over the rooms in array order, each
     * room's step reading and overwriting a working copy of the array as
     * the earlier steps left it.
     */
    method RotateParticipants()
      requires RosterValid()
      modifies this
      ensures RosterValid()
      ensures participants == Rotated(old(rooms), old(participants))
      ensures session == old(session) && rooms == old(rooms) && leaders == old(leaders)
      ensures timeRemaining == old(timeRemaining)
    {
      RotatedKeepsRoster(rooms, participants);
      participants := RotateAll(rooms, participants);
    }

    /**
     * `endSession(roomId)`: the room is marked finished first; then, when
     * another room is active, the room's participants are dealt round-robin
     * over the other active rooms, each to the back of its target's queue.
     */
    method EndSession(roomId: string)
      requires Valid()
      modifies this
      ensures Valid()
      ensures rooms == MarkFinished(old(rooms), roomId)
      ensures participants == EndSessionParticipants(old(rooms), old(participants), roomId)
      ensures session == old(session) && leaders == old(leaders) && timeRemaining == old(timeRemaining)
    {
      var previousRooms := rooms;
      rooms := MarkFinished(rooms, roomId);
      MarkFinishedEffect(previousRooms, roomId);
      EndSessionKeepsInvariants(previousRooms, participants, roomId);
      var activeRooms := ActiveRoomsExcept(previousRooms, roomId);
      if |activeRooms| == 0 {
        return;
      }
      participants := RedistributeAll(participants, roomId, activeRooms);
    }

    /** `advanceRound`: a rotation pass, the next round, a full clock, whatever the clock showed. */
    method AdvanceRound()
      requires RosterValid()
      modifies this
      ensures Valid()
      ensures participants == Rotated(old(rooms), old(participants))
      ensures session == old(session).(currentRound := old(session).currentRound + 1)
      ensures timeRemaining == ROUND_DURATION
      ensures rooms == old(rooms) && leaders == old(leaders)
    {
      RotateParticipants();
      session := session.(currentRound := session.currentRound + 1);
      timeRemaining := ROUND_DURATION;
    }

    /**
     * One second of the timer while it is mounted: the interval decrements
     * the clock while the session runs, and when that leaves the clock at 0
     * the effect advances the round at once. A paused session does not
     * change.
     */
    method Tick()
      requires Valid()
      modifies this
      ensures Valid()
      ensures !old(session).isRunning ==>
        session == old(session) && participants == old(participants) && timeRemaining == old(timeRemaining)
      ensures old(session).isRunning && old(timeRemaining) > 1 ==>
        session == old(session) && participants == old(participants) && timeRemaining == old(timeRemaining) - 1
      ensures old(session).isRunning && old(timeRemaining) == 1 ==>
        && session == old(session).(currentRound := old(session).currentRound + 1)
        && participants == Rotated(old(rooms), old(participants))
        && timeRemaining == ROUND_DURATION
      ensures rooms == old(rooms) && leaders == old(leaders)
    {
      if session.isRunning && timeRemaining > 0 {
        timeRemaining := timeRemaining - 1;
      }
      if timeRemaining == 0 && session.isRunning {
        AdvanceRound();
      }
    }
  }
}
