/**
 * The rotation pass of the session context (`rotateParticipants`,
 * src/context/SessionContext.tsx), as a specification on values.
 *
 * The pass visits every room in array order, whatever its status. Each
 * room's step reads the participant array as the earlier steps left it:
 * a pilot moved into a room earlier in the same pass counts as one of that
 * room's observers. A step only acts on a room that holds both a pilot and
 * a copilot: the pilot becomes an observer at the back of the next room
 * (circularly by array index), the copilot becomes pilot at position 0,
 * and the observer with the lowest position becomes copilot at position 1.
 */
module Rotation {
  import opened Models
  import opened Roster

  /** The id of the room after `rooms[i]`, wrapping round to the first. */
  function NextRoomId(rooms: seq<Room>, i: nat): string
    requires i < |rooms|
  {
    rooms[(i + 1) % |rooms|].id
  }

  /** Whether the step for `rooms[i]` acts: the room holds a pilot and a copilot. */
  predicate Rotates(rooms: seq<Room>, u: seq<Participant>, i: nat)
    requires i < |rooms|
  {
    var roomParticipants := InRoom(u, rooms[i].id);
    FindRole(roomParticipants, Pilot).Some? && FindRole(roomParticipants, Copilot).Some?
  }

  /** Writes the outgoing pilot at index `k`: an observer at the back of `nextRoomId`. */
  function MovePilot(u: seq<Participant>, k: int, nextRoomId: string): seq<Participant> {
    if 0 <= k < |u| then
      u[k := u[k].(role := Observer, currentRoomId := nextRoomId, position := NextPosition(u, nextRoomId))]
    else
      u
  }

  /** Writes a new role and position at index `k`. */
  function Promote(u: seq<Participant>, k: int, role: Role, position: int): seq<Participant> {
    if 0 <= k < |u| then u[k := u[k].(role := role, position := position)] else u
  }

  /** One room's step of the pass, applied to the array `u` as earlier steps left it. */
  function RotateRoom(rooms: seq<Room>, u: seq<Participant>, i: nat): (r: seq<Participant>)
    requires i < |rooms|
    ensures |r| == |u|
  {
    var roomParticipants := InRoom(u, rooms[i].id);
    if !Rotates(rooms, u, i) then u
    else
      var pilot := FindRole(roomParticipants, Pilot).value;
      var copilot := FindRole(roomParticipants, Copilot).value;
      var u1 := MovePilot(u, IndexOfId(u, pilot.id), NextRoomId(rooms, i));
      var u2 := Promote(u1, IndexOfId(u1, copilot.id), Pilot, 0);
      var nextCopilot := MinObserver(roomParticipants);
      if nextCopilot.None? then u2
      else Promote(u2, IndexOfId(u2, nextCopilot.value.id), Copilot, 1)
  }

  /** The steps `step(_, 0)`, ..., `step(_, n - 1)` applied in turn to `ps`. */
  function Fold(step: (seq<Participant>, nat) -> seq<Participant>, ps: seq<Participant>, n: nat): seq<Participant> {
    if n == 0 then ps else step(Fold(step, ps, n - 1), n - 1)
  }

  /** A property every step preserves holds after any number of steps. */
  lemma {:induction false} FoldKeeps(step: (seq<Participant>, nat) -> seq<Participant>,
                                     inv: seq<Participant> -> bool, ps: seq<Participant>, n: nat)
    requires inv(ps)
    requires forall u, i: nat :: i < n && inv(u) ==> inv(step(u, i))
    ensures inv(Fold(step, ps, n))
  {
    if n > 0 {
      FoldKeeps(step, inv, ps, n - 1);
    }
  }

  /** The `forEach` callback for the room at index `i`; indices past the last room do nothing. */
  function Step(rooms: seq<Room>): (seq<Participant>, nat) -> seq<Participant> {
    (u: seq<Participant>, i: nat) => if i < |rooms| then RotateRoom(rooms, u, i) else u
  }

  /** The array after the steps for rooms `0 .. i-1`. */
  function RotateUpTo(rooms: seq<Room>, ps: seq<Participant>, i: nat): seq<Participant>
    requires i <= |rooms|
  {
    Fold(Step(rooms), ps, i)
  }

  /** The whole pass. */
  function Rotated(rooms: seq<Room>, ps: seq<Participant>): (r: seq<Participant>)
    ensures |r| == |ps|
  {
    FoldKeeps(Step(rooms), u => |u| == |ps|, ps, |rooms|);
    RotateUpTo(rooms, ps, |rooms|)
  }

  // ---------------------------------------------------------------------
  // One step

  /**
   * The writes of a step once the three indices are known: the pilot at
   * `pi`, the copilot at `ci`, the next copilot at `oi` (-1 for none).
   */
  function ApplyStep(u: seq<Participant>, pi: int, ci: int, oi: int, nextRoomId: string): seq<Participant> {
    var u2 := Promote(MovePilot(u, pi, nextRoomId), ci, Pilot, 0);
    if oi == -1 then u2 else Promote(u2, oi, Copilot, 1)
  }

  /**
   * `findIndex` on the partly written array finds the same indices as on
   * the array the step started from, since writes never change ids.
   */
  lemma RotateRoomShape(rooms: seq<Room>, u: seq<Participant>, i: nat)
    requires i < |rooms|
    requires Rotates(rooms, u, i)
    ensures var roomParticipants := InRoom(u, rooms[i].id);
      var pilot := FindRole(roomParticipants, Pilot).value;
      var copilot := FindRole(roomParticipants, Copilot).value;
      var nextCopilot := MinObserver(roomParticipants);
      RotateRoom(rooms, u, i) ==
        ApplyStep(u, IndexOfId(u, pilot.id), IndexOfId(u, copilot.id),
          if nextCopilot.Some? then IndexOfId(u, nextCopilot.value.id) else -1, NextRoomId(rooms, i))
  {
    var roomParticipants := InRoom(u, rooms[i].id);
    var copilot := FindRole(roomParticipants, Copilot).value;
    var nextCopilot := MinObserver(roomParticipants);
    var u1 := MovePilot(u, IndexOfId(u, FindRole(roomParticipants, Pilot).value.id), NextRoomId(rooms, i));
    assert SameIdentity(u1, u);
    IndexOfSameIdentity(u1, u, copilot.id);
    var u2 := Promote(u1, IndexOfId(u1, copilot.id), Pilot, 0);
    assert SameIdentity(u2, u);
    if nextCopilot.Some? {
      IndexOfSameIdentity(u2, u, nextCopilot.value.id);
    }
  }

  /** What the writes of a step do at three distinct indices. */
  lemma ApplyStepEffect(u: seq<Participant>, pi: int, ci: int, oi: int, nextRoomId: string)
    requires 0 <= pi < |u| && 0 <= ci < |u| && pi != ci
    requires oi == -1 || (0 <= oi < |u| && oi != pi && oi != ci)
    ensures var r := ApplyStep(u, pi, ci, oi, nextRoomId);
      && |r| == |u|
      && r[pi] == u[pi].(role := Observer, currentRoomId := nextRoomId, position := NextPosition(u, nextRoomId))
      && r[ci] == u[ci].(role := Pilot, position := 0)
      && (oi != -1 ==> r[oi] == u[oi].(role := Copilot, position := 1))
      && (forall k :: 0 <= k < |u| && k != pi && k != ci && k != oi ==> r[k] == u[k])
  {
  }

  /** The writes of a step change only role, room and position. */
  lemma ApplyStepIdentity(u: seq<Participant>, pi: int, ci: int, oi: int, nextRoomId: string)
    ensures SameIdentity(ApplyStep(u, pi, ci, oi, nextRoomId), u)
  {
    var u1 := MovePilot(u, pi, nextRoomId);
    assert SameIdentity(u1, u);
    var u2 := Promote(u1, ci, Pilot, 0);
    assert SameIdentity(u2, u);
  }

  /** The writes of a step only move somebody into `nextRoomId`. */
  lemma ApplyStepRooms(u: seq<Participant>, pi: int, ci: int, oi: int, nextRoomId: string)
    ensures var r := ApplyStep(u, pi, ci, oi, nextRoomId);
      |r| == |u| &&
      forall k :: 0 <= k < |r| ==> r[k].currentRoomId == u[k].currentRoomId || r[k].currentRoomId == nextRoomId
  {
    var u1 := MovePilot(u, pi, nextRoomId);
    assert forall k :: 0 <= k < |u1| ==> u1[k].currentRoomId == u[k].currentRoomId || u1[k].currentRoomId == nextRoomId;
  }

  /** A room lacking a pilot or a copilot is left as it is. */
  lemma RotateRoomSkipsIncomplete(rooms: seq<Room>, u: seq<Participant>, i: nat)
    requires i < |rooms|
    ensures var roomParticipants := InRoom(u, rooms[i].id);
      FindRole(roomParticipants, Pilot).None? || FindRole(roomParticipants, Copilot).None?
      ==> RotateRoom(rooms, u, i) == u
  {
  }

  /** A step adds, removes and reorders nobody: only role, room and position change. */
  lemma RotateRoomIdentity(rooms: seq<Room>, u: seq<Participant>, i: nat)
    requires i < |rooms|
    ensures SameIdentity(RotateRoom(rooms, u, i), u)
  {
    if Rotates(rooms, u, i) {
      RotateRoomShape(rooms, u, i);
      var roomParticipants := InRoom(u, rooms[i].id);
      var nextCopilot := MinObserver(roomParticipants);
      ApplyStepIdentity(u, IndexOfId(u, FindRole(roomParticipants, Pilot).value.id),
        IndexOfId(u, FindRole(roomParticipants, Copilot).value.id),
        if nextCopilot.Some? then IndexOfId(u, nextCopilot.value.id) else -1, NextRoomId(rooms, i));
    }
  }

  /**
   * The exact effect of a step on a room holding a pilot and a copilot:
   * the pilot (the first pilot of the room) becomes an observer in the next
   * room at one past that room's back position; the copilot becomes pilot
   * at position 0; the observer of lowest position (earliest on ties)
   * becomes copilot at position 1; every other entry is unchanged.
   */
  lemma RotateRoomEffect(rooms: seq<Room>, u: seq<Participant>, i: nat)
    requires i < |rooms|
    requires UniqueIds(u)
    requires Rotates(rooms, u, i)
    ensures var roomParticipants := InRoom(u, rooms[i].id);
      var pilot := FindRole(roomParticipants, Pilot).value;
      var copilot := FindRole(roomParticipants, Copilot).value;
      var nextCopilot := MinObserver(roomParticipants);
      var nextRoomId := NextRoomId(rooms, i);
      var r := RotateRoom(rooms, u, i);
      var pi := IndexOfId(u, pilot.id);
      var ci := IndexOfId(u, copilot.id);
      var oi := if nextCopilot.Some? then IndexOfId(u, nextCopilot.value.id) else -1;
      && |r| == |u|
      && 0 <= pi < |u| && u[pi] == pilot
      && 0 <= ci < |u| && u[ci] == copilot && ci != pi
      && r[pi] == pilot.(role := Observer, currentRoomId := nextRoomId, position := NextPosition(u, nextRoomId))
      && r[ci] == copilot.(role := Pilot, position := 0)
      && (nextCopilot.Some? ==>
            && 0 <= oi < |u| && u[oi] == nextCopilot.value && oi != pi && oi != ci
            && r[oi] == nextCopilot.value.(role := Copilot, position := 1))
      && (forall k :: 0 <= k < |u| && k != pi && k != ci && k != oi ==> r[k] == u[k])
  {
    var roomParticipants := InRoom(u, rooms[i].id);
    var pilot := FindRole(roomParticipants, Pilot).value;
    var copilot := FindRole(roomParticipants, Copilot).value;
    var nextCopilot := MinObserver(roomParticipants);
    InRoomSound(u, rooms[i].id);
    FindRoleSound(roomParticipants, Pilot);
    FindRoleSound(roomParticipants, Copilot);
    MinObserverSound(roomParticipants);
    var pk :| 0 <= pk < |u| && u[pk] == pilot;
    IndexOfMember(u, pk);
    var ck :| 0 <= ck < |u| && u[ck] == copilot;
    IndexOfMember(u, ck);
    var oi := -1;
    if nextCopilot.Some? {
      var ok :| 0 <= ok < |u| && u[ok] == nextCopilot.value;
      IndexOfMember(u, ok);
      oi := ok;
    }
    RotateRoomShape(rooms, u, i);
    ApplyStepEffect(u, pk, ck, oi, NextRoomId(rooms, i));
  }

  /** Two different entries in one room holding the same pilot or copilot role break well-formedness. */
  lemma WellFormedPair(ps: seq<Participant>, j: int, k: int)
    requires RolesWellFormed(ps)
    requires 0 <= j < |ps| && 0 <= k < |ps| && j != k
    requires ps[j].currentRoomId == ps[k].currentRoomId && ps[j].role == ps[k].role
    ensures ps[j].role == Observer
  {
    if k < j {
      assert ps[k].role == Observer;
    }
  }

  /**
   * The writes of a step on a well-formed array, for a pilot at `pi` and a
   * copilot at `ci` of the same room and an observer of that room at `oi`,
   * keep at most one pilot and one copilot per room; afterwards the room's
   * only pilot is at `ci`, and without `oi` the room has no copilot.
   */
  lemma ApplyStepKeepsRolesWellFormed(u: seq<Participant>, pi: int, ci: int, oi: int, roomId: string, nextRoomId: string)
    requires RolesWellFormed(u)
    requires 0 <= pi < |u| && 0 <= ci < |u| && pi != ci
    requires oi == -1 || (0 <= oi < |u| && oi != pi && oi != ci)
    requires u[pi].currentRoomId == roomId && u[pi].role == Pilot
    requires u[ci].currentRoomId == roomId && u[ci].role == Copilot
    requires oi != -1 ==> u[oi].currentRoomId == roomId && u[oi].role == Observer
    ensures var r := ApplyStep(u, pi, ci, oi, nextRoomId);
      && RolesWellFormed(r)
      && (forall k :: 0 <= k < |r| && r[k].currentRoomId == roomId && r[k].role == Pilot ==> k == ci)
      && (oi == -1 ==> forall k :: 0 <= k < |r| && r[k].currentRoomId == roomId ==> r[k].role != Copilot)
  {
    var r := ApplyStep(u, pi, ci, oi, nextRoomId);
    ApplyStepEffect(u, pi, ci, oi, nextRoomId);
    // Every entry the step leaves alone that sits in the room with a
    // pilot or copilot role would be a second one next to u[pi] or u[ci].
    forall k | 0 <= k < |u| && k != pi && k != ci && k != oi && u[k].currentRoomId == roomId
      ensures u[k].role == Observer
    {
      if u[k].role == Pilot {
        WellFormedPair(u, k, pi);
      } else if u[k].role == Copilot {
        WellFormedPair(u, k, ci);
      }
    }
    forall j, k | 0 <= j < k < |r| && r[j].currentRoomId == r[k].currentRoomId && r[j].role == r[k].role
      ensures r[j].role == Observer
    {
      if j != pi && j != ci && j != oi && k != pi && k != ci && k != oi {
        assert u[j] == r[j] && u[k] == r[k];
      }
    }
  }

  /**
   * With at most one pilot and one copilot per room before the step, the
   * same holds after it; the former copilot is then the room's only pilot,
   * and when the room had no observer to promote it has no copilot.
   */
  lemma RotateRoomKeepsRolesWellFormed(rooms: seq<Room>, u: seq<Participant>, i: nat)
    requires i < |rooms|
    requires UniqueIds(u) && RolesWellFormed(u)
    requires Rotates(rooms, u, i)
    ensures var r := RotateRoom(rooms, u, i);
      var roomParticipants := InRoom(u, rooms[i].id);
      var ci := IndexOfId(u, FindRole(roomParticipants, Copilot).value.id);
      && RolesWellFormed(r)
      && (forall k :: 0 <= k < |r| && r[k].currentRoomId == rooms[i].id && r[k].role == Pilot ==> k == ci)
      && (MinObserver(roomParticipants).None? ==>
            forall k :: 0 <= k < |r| && r[k].currentRoomId == rooms[i].id ==> r[k].role != Copilot)
  {
    RotateRoomEffect(rooms, u, i);
    RotateRoomShape(rooms, u, i);
    InRoomSound(u, rooms[i].id);
    var roomParticipants := InRoom(u, rooms[i].id);
    var pilot := FindRole(roomParticipants, Pilot).value;
    var copilot := FindRole(roomParticipants, Copilot).value;
    var nextCopilot := MinObserver(roomParticipants);
    FindRoleSound(roomParticipants, Pilot);
    FindRoleSound(roomParticipants, Copilot);
    MinObserverSound(roomParticipants);
    var oi := if nextCopilot.Some? then IndexOfId(u, nextCopilot.value.id) else -1;
    ApplyStepKeepsRolesWellFormed(u, IndexOfId(u, pilot.id), IndexOfId(u, copilot.id), oi,
      rooms[i].id, NextRoomId(rooms, i));
  }

  /** A step keeps every participant in an existing room. */
  lemma RotateRoomKeepsRoomRefs(rooms: seq<Room>, u: seq<Participant>, i: nat)
    requires i < |rooms|
    requires RoomRefsValid(rooms, u)
    ensures RoomRefsValid(rooms, RotateRoom(rooms, u, i))
  {
    if Rotates(rooms, u, i) {
      RotateRoomShape(rooms, u, i);
      var roomParticipants := InRoom(u, rooms[i].id);
      var nextCopilot := MinObserver(roomParticipants);
      var nextRoomId := NextRoomId(rooms, i);
      ApplyStepRooms(u, IndexOfId(u, FindRole(roomParticipants, Pilot).value.id),
        IndexOfId(u, FindRole(roomParticipants, Copilot).value.id),
        if nextCopilot.Some? then IndexOfId(u, nextCopilot.value.id) else -1, nextRoomId);
      assert RoomIds(rooms)[(i + 1) % |rooms|] == nextRoomId;
    }
  }

  // ---------------------------------------------------------------------
  // The whole pass

  /**
   * A whole pass adds, removes and reorders nobody, and keeps ids distinct,
   * every participant in an existing room, and at most one pilot and one
   * copilot per room.
   */
  lemma RotatedKeepsRoster(rooms: seq<Room>, ps: seq<Participant>)
    requires UniqueIds(ps) && RoomRefsValid(rooms, ps) && RolesWellFormed(ps)
    ensures var r := Rotated(rooms, ps);
      SameIdentity(r, ps) && UniqueIds(r) && RoomRefsValid(rooms, r) && RolesWellFormed(r)
  {
    var step := Step(rooms);
    forall u, i: nat | i < |rooms| && SameIdentity(u, ps) ensures SameIdentity(step(u, i), ps) {
      RotateRoomIdentity(rooms, u, i);
      SameIdentityTrans(RotateRoom(rooms, u, i), u, ps);
    }
    FoldKeeps(step, u => SameIdentity(u, ps), ps, |rooms|);
    SameIdentityUniqueIds(Rotated(rooms, ps), ps);
    forall u, i: nat | i < |rooms| && RoomRefsValid(rooms, u) ensures RoomRefsValid(rooms, step(u, i)) {
      RotateRoomKeepsRoomRefs(rooms, u, i);
    }
    FoldKeeps(step, u => RoomRefsValid(rooms, u), ps, |rooms|);
    forall u, i: nat | i < |rooms| && UniqueIds(u) && RolesWellFormed(u)
      ensures UniqueIds(step(u, i)) && RolesWellFormed(step(u, i))
    {
      RotateRoomIdentity(rooms, u, i);
      SameIdentityUniqueIds(RotateRoom(rooms, u, i), u);
      if Rotates(rooms, u, i) {
        RotateRoomKeepsRolesWellFormed(rooms, u, i);
      }
    }
    FoldKeeps(step, u => UniqueIds(u) && RolesWellFormed(u), ps, |rooms|);
  }
}
