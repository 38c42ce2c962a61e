/**
 * Closing a room (`endSession`, src/context/SessionContext.tsx): the room is
 * marked finished, and when some other room is still active its
 * participants are dealt round-robin over the other active rooms, each one
 * joining the back of its target room's queue as an observer.
 */
module RoomClosing {
  import opened Models
  import opened Roster

  /** `rooms.map(room => room.id === roomId ? { ...room, status: Finished } : room)`. */
  function MarkFinished(rooms: seq<Room>, roomId: string): (r: seq<Room>)
    ensures |r| == |rooms|
  {
    seq(|rooms|, k requires 0 <= k < |rooms| =>
      if rooms[k].id == roomId then rooms[k].(status := Finished) else rooms[k])
  }

  /**
   * Marking keeps every room in place, finishes every room with the id and
   * touches nothing else.
   */
  lemma MarkFinishedEffect(rooms: seq<Room>, roomId: string)
    ensures var r := MarkFinished(rooms, roomId);
      && |r| == |rooms|
      && RoomIds(r) == RoomIds(rooms)
      && (forall k :: 0 <= k < |r| ==> r[k] == rooms[k].(status := r[k].status))
      && (forall k :: 0 <= k < |r| && r[k].id == roomId ==> r[k].status == Finished)
      && (forall k :: 0 <= k < |r| && r[k].id != roomId ==> r[k] == rooms[k])
  {
  }

  /** `rooms.filter(room => room.id !== roomId && room.status === Active)`. */
  function ActiveRoomsExcept(rooms: seq<Room>, roomId: string): (r: seq<Room>)
    ensures |r| <= |rooms|
  {
    if rooms == [] then []
    else if rooms[0].id != roomId && rooms[0].status == Active then
      [rooms[0]] + ActiveRoomsExcept(rooms[1..], roomId)
    else
      ActiveRoomsExcept(rooms[1..], roomId)
  }

  /** The filter keeps exactly the active rooms of another id. */
  lemma {:induction false} ActiveRoomsExceptMembers(rooms: seq<Room>, roomId: string)
    ensures forall room :: room in ActiveRoomsExcept(rooms, roomId) <==>
      room in rooms && room.id != roomId && room.status == Active
  {
    if rooms != [] {
      ActiveRoomsExceptMembers(rooms[1..], roomId);
      assert forall room :: room in rooms <==> room == rooms[0] || room in rooms[1..];
    }
  }

  /**
   * The candidates are the same whether they are read before or after the
   * closing room is marked: the filter leaves out that room's id anyway.
   */
  lemma {:induction false} ActiveRoomsAfterMarking(rooms: seq<Room>, roomId: string)
    ensures ActiveRoomsExcept(MarkFinished(rooms, roomId), roomId) == ActiveRoomsExcept(rooms, roomId)
  {
    if rooms != [] {
      var marked := MarkFinished(rooms, roomId);
      assert marked[1..] == MarkFinished(rooms[1..], roomId);
      ActiveRoomsAfterMarking(rooms[1..], roomId);
    }
  }

  /**
   * One iteration of the `forEach`: the participant `p` (as the filter saw
   * it) is written over its own entry, moved to `target` as an observer
   * one past the back of the target's queue.
   */
  function PlaceClosing(u: seq<Participant>, p: Participant, target: Room): seq<Participant> {
    var k := IndexOfId(u, p.id);
    if 0 <= k < |u| then
      u[k := p.(currentRoomId := target.id, role := Observer, position := NextPosition(u, target.id))]
    else
      u
  }

  /** The array after the first `n` closing participants are placed, round-robin over `active`. */
  function MoveClosing(ps: seq<Participant>, closing: seq<Participant>, active: seq<Room>, n: nat): seq<Participant>
    requires n <= |closing| && |active| > 0
  {
    if n == 0 then ps
    else PlaceClosing(MoveClosing(ps, closing, active, n - 1), closing[n - 1], active[(n - 1) % |active|])
  }

  /** The participants of `roomId` dealt over the non-empty list `active`. */
  function Redistributed(ps: seq<Participant>, roomId: string, active: seq<Room>): seq<Participant>
    requires |active| > 0
  {
    var closing := InRoom(ps, roomId);
    MoveClosing(ps, closing, active, |closing|)
  }

  /** The participant array after `endSession(roomId)`. */
  function EndSessionParticipants(rooms: seq<Room>, ps: seq<Participant>, roomId: string): seq<Participant> {
    var active := ActiveRoomsExcept(rooms, roomId);
    if |active| == 0 then ps else Redistributed(ps, roomId, active)
  }

  /** The entry of `ps` holding the `j`-th closing participant. */
  function Slot(ps: seq<Participant>, closing: seq<Participant>, j: nat): int
    requires j < |closing|
  {
    IndexOfId(ps, closing[j].id)
  }

  /**
   * The setting of the placements: `ps` and `closing` have distinct ids,
   * every closing participant is in `roomId` and is found by its id in `ps`,
   * and no candidate room has that id.
   */
  predicate Closing(ps: seq<Participant>, closing: seq<Participant>, active: seq<Room>, roomId: string) {
    && UniqueIds(ps)
    && UniqueIds(closing)
    && (forall j :: 0 <= j < |closing| ==>
          0 <= Slot(ps, closing, j) && ps[Slot(ps, closing, j)] == closing[j] && closing[j].currentRoomId == roomId)
    && (forall a :: 0 <= a < |active| ==> active[a].id != roomId)
  }

  /** The filter's result, dealt over the other active rooms, is such a setting. */
  lemma InRoomClosing(rooms: seq<Room>, ps: seq<Participant>, roomId: string)
    requires UniqueIds(ps)
    ensures Closing(ps, InRoom(ps, roomId), ActiveRoomsExcept(rooms, roomId), roomId)
  {
    var closing := InRoom(ps, roomId);
    var active := ActiveRoomsExcept(rooms, roomId);
    InRoomUniqueIds(ps, roomId);
    InRoomSound(ps, roomId);
    forall j | 0 <= j < |closing|
      ensures 0 <= Slot(ps, closing, j) && ps[Slot(ps, closing, j)] == closing[j] && closing[j].currentRoomId == roomId
    {
      assert closing[j] in closing;
      var k :| 0 <= k < |ps| && ps[k] == closing[j];
      IndexOfMember(ps, k);
    }
    ActiveRoomsExceptMembers(rooms, roomId);
    forall a | 0 <= a < |active| ensures active[a].id != roomId {
      assert active[a] in active;
    }
  }

  /** Every participant of the closing room is the `j`-th closing participant for some `j`. */
  lemma SlotOf(ps: seq<Participant>, roomId: string, k: int) returns (j: nat)
    requires UniqueIds(ps) && 0 <= k < |ps| && ps[k].currentRoomId == roomId
    ensures j < |InRoom(ps, roomId)| && Slot(ps, InRoom(ps, roomId), j) == k
  {
    var closing := InRoom(ps, roomId);
    InRoomComplete(ps, roomId);
    assert ps[k] in closing;
    j :| 0 <= j < |closing| && closing[j] == ps[k];
    IndexOfMember(ps, k);
  }

  /** Slots of different closing participants differ. */
  lemma SlotsDistinct(ps: seq<Participant>, closing: seq<Participant>, active: seq<Room>, roomId: string, i: nat, j: nat)
    requires Closing(ps, closing, active, roomId) && i < |closing| && j < |closing| && i != j
    ensures Slot(ps, closing, i) != Slot(ps, closing, j)
  {
  }

  /**
   * One placement on an array with the identities of `ps` writes over the
   * participant's own slot of `ps` and keeps those identities.
   */
  lemma PlaceClosingAt(ps: seq<Participant>, u: seq<Participant>, p: Participant, target: Room)
    requires SameIdentity(u, ps) && UniqueIds(ps)
    requires 0 <= IndexOfId(ps, p.id) && ps[IndexOfId(ps, p.id)] == p
    ensures var s := IndexOfId(ps, p.id);
      var r := PlaceClosing(u, p, target);
      && r == u[s := p.(currentRoomId := target.id, role := Observer, position := NextPosition(u, target.id))]
      && SameIdentity(r, ps)
  {
    IndexOfSameIdentity(u, ps, p.id);
  }

  /**
   * The array `r` after `n` placements: nobody is added, removed or
   * reordered; nobody outside the closing room has changed; and the `j`-th
   * closing participant (`j < n`) sits in `active[j % m]` as an observer,
   * with every other field as the filter saw it.
   */
  predicate PlacedState(ps: seq<Participant>, closing: seq<Participant>, active: seq<Room>, roomId: string,
                        n: nat, r: seq<Participant>)
    requires n <= |closing| && |active| > 0
    requires Closing(ps, closing, active, roomId)
  {
    && SameIdentity(r, ps)
    && (forall k :: 0 <= k < |ps| && ps[k].currentRoomId != roomId ==> r[k] == ps[k])
    && (forall j :: 0 <= j < n ==>
          r[Slot(ps, closing, j)] ==
            closing[j].(currentRoomId := active[j % |active|].id, role := Observer,
                        position := r[Slot(ps, closing, j)].position))
  }

  /** Writing the `n`-th closing participant over its slot extends the placed state by one. */
  lemma PlacedStateStep(ps: seq<Participant>, closing: seq<Participant>, active: seq<Room>, roomId: string,
                        n: nat, u: seq<Participant>, position: int)
    requires 0 < n <= |closing| && |active| > 0
    requires Closing(ps, closing, active, roomId)
    requires PlacedState(ps, closing, active, roomId, n - 1, u)
    ensures PlacedState(ps, closing, active, roomId, n,
      u[Slot(ps, closing, n - 1) := closing[n - 1].(currentRoomId := active[(n - 1) % |active|].id,
                                                   role := Observer, position := position)])
  {
    forall j | 0 <= j < n - 1 ensures Slot(ps, closing, j) != Slot(ps, closing, n - 1) {
      SlotsDistinct(ps, closing, active, roomId, j, n - 1);
    }
  }

  /** The placed state holds after every number of placements. */
  lemma {:induction false} MoveClosingPlaced(ps: seq<Participant>, closing: seq<Participant>, active: seq<Room>,
                                             roomId: string, n: nat)
    requires n <= |closing| && |active| > 0
    requires Closing(ps, closing, active, roomId)
    ensures PlacedState(ps, closing, active, roomId, n, MoveClosing(ps, closing, active, n))
  {
    if n > 0 {
      MoveClosingPlaced(ps, closing, active, roomId, n - 1);
      var u := MoveClosing(ps, closing, active, n - 1);
      var target := active[(n - 1) % |active|];
      PlaceClosingAt(ps, u, closing[n - 1], target);
      PlacedStateStep(ps, closing, active, roomId, n, u, NextPosition(u, target.id));
    }
  }

  /**
   * The positions in `r` after `n` placements: every placed participant is
   * behind the original occupants of its target room, and behind those
   * placed there before it.
   */
  predicate QueuedState(ps: seq<Participant>, closing: seq<Participant>, active: seq<Room>, roomId: string,
                        n: nat, r: seq<Participant>)
    requires n <= |closing| && |active| > 0
    requires Closing(ps, closing, active, roomId)
  {
    QueuedBehind(ps, closing, active, roomId, n, r) && QueuedInOrder(ps, closing, active, roomId, n, r)
  }

  /** Every placed participant is behind the original occupants of its target room. */
  predicate QueuedBehind(ps: seq<Participant>, closing: seq<Participant>, active: seq<Room>, roomId: string,
                         n: nat, r: seq<Participant>)
    requires n <= |closing| && |active| > 0
    requires Closing(ps, closing, active, roomId)
  {
    && |r| == |ps|
    && (forall j, k :: 0 <= j < n && 0 <= k < |ps| && ps[k].currentRoomId == active[j % |active|].id
          ==> ps[k].position < r[Slot(ps, closing, j)].position)
  }

  /** Participants placed in the same room have strictly increasing positions. */
  predicate QueuedInOrder(ps: seq<Participant>, closing: seq<Participant>, active: seq<Room>, roomId: string,
                          n: nat, r: seq<Participant>)
    requires n <= |closing| && |active| > 0
    requires Closing(ps, closing, active, roomId)
  {
    && |r| == |ps|
    && (forall i, j :: 0 <= i < j < n && i % |active| == j % |active| ==>
          r[Slot(ps, closing, i)].position < r[Slot(ps, closing, j)].position)
  }

  /**
   * Writing the `n`-th closing participant over its slot, at a position
   * behind everyone then in its target room, extends the queued state by one.
   */
  lemma QueuedStateStep(ps: seq<Participant>, closing: seq<Participant>, active: seq<Room>, roomId: string,
                        n: nat, u: seq<Participant>, position: int)
    requires 0 < n <= |closing| && |active| > 0
    requires Closing(ps, closing, active, roomId)
    requires PlacedState(ps, closing, active, roomId, n - 1, u)
    requires QueuedState(ps, closing, active, roomId, n - 1, u)
    requires forall k :: 0 <= k < |u| && u[k].currentRoomId == active[(n - 1) % |active|].id ==> u[k].position < position
    ensures QueuedState(ps, closing, active, roomId, n,
      u[Slot(ps, closing, n - 1) := closing[n - 1].(currentRoomId := active[(n - 1) % |active|].id,
                                                   role := Observer, position := position)])
  {
    QueuedBehindStep(ps, closing, active, roomId, n, u, position);
    QueuedInOrderStep(ps, closing, active, roomId, n, u, position);
  }

  lemma QueuedBehindStep(ps: seq<Participant>, closing: seq<Participant>, active: seq<Room>, roomId: string,
                         n: nat, u: seq<Participant>, position: int)
    requires 0 < n <= |closing| && |active| > 0
    requires Closing(ps, closing, active, roomId)
    requires PlacedState(ps, closing, active, roomId, n - 1, u)
    requires QueuedBehind(ps, closing, active, roomId, n - 1, u)
    requires forall k :: 0 <= k < |u| && u[k].currentRoomId == active[(n - 1) % |active|].id ==> u[k].position < position
    ensures QueuedBehind(ps, closing, active, roomId, n,
      u[Slot(ps, closing, n - 1) := closing[n - 1].(currentRoomId := active[(n - 1) % |active|].id,
                                                   role := Observer, position := position)])
  {
    var s := Slot(ps, closing, n - 1);
    var target := active[(n - 1) % |active|];
    var r := u[s := closing[n - 1].(currentRoomId := target.id, role := Observer, position := position)];
    forall j | 0 <= j < n - 1 ensures r[Slot(ps, closing, j)] == u[Slot(ps, closing, j)] {
      SlotsDistinct(ps, closing, active, roomId, j, n - 1);
    }
    forall k | 0 <= k < |ps| && ps[k].currentRoomId == target.id
      ensures ps[k].position < r[s].position
    {
      assert u[k] == ps[k];
    }
  }

  lemma QueuedInOrderStep(ps: seq<Participant>, closing: seq<Participant>, active: seq<Room>, roomId: string,
                          n: nat, u: seq<Participant>, position: int)
    requires 0 < n <= |closing| && |active| > 0
    requires Closing(ps, closing, active, roomId)
    requires PlacedState(ps, closing, active, roomId, n - 1, u)
    requires QueuedInOrder(ps, closing, active, roomId, n - 1, u)
    requires forall k :: 0 <= k < |u| && u[k].currentRoomId == active[(n - 1) % |active|].id ==> u[k].position < position
    ensures QueuedInOrder(ps, closing, active, roomId, n,
      u[Slot(ps, closing, n - 1) := closing[n - 1].(currentRoomId := active[(n - 1) % |active|].id,
                                                   role := Observer, position := position)])
  {
    var m := |active|;
    var s := Slot(ps, closing, n - 1);
    var target := active[(n - 1) % m];
    var r := u[s := closing[n - 1].(currentRoomId := target.id, role := Observer, position := position)];
    forall j | 0 <= j < n - 1 ensures r[Slot(ps, closing, j)] == u[Slot(ps, closing, j)] {
      SlotsDistinct(ps, closing, active, roomId, j, n - 1);
    }
    forall i | 0 <= i < n - 1 && i % m == (n - 1) % m
      ensures r[Slot(ps, closing, i)].position < r[s].position
    {
      assert u[Slot(ps, closing, i)].currentRoomId == target.id;
    }
  }

  /** The queued state holds after every number of placements. */
  lemma {:induction false} MoveClosingQueued(ps: seq<Participant>, closing: seq<Participant>, active: seq<Room>,
                                             roomId: string, n: nat)
    requires n <= |closing| && |active| > 0
    requires Closing(ps, closing, active, roomId)
    ensures QueuedState(ps, closing, active, roomId, n, MoveClosing(ps, closing, active, n))
  {
    if n > 0 {
      MoveClosingQueued(ps, closing, active, roomId, n - 1);
      MoveClosingPlaced(ps, closing, active, roomId, n - 1);
      var u := MoveClosing(ps, closing, active, n - 1);
      var target := active[(n - 1) % |active|];
      PlaceClosingAt(ps, u, closing[n - 1], target);
      NextPositionAboveAll(u, target.id);
      QueuedStateStep(ps, closing, active, roomId, n, u, NextPosition(u, target.id));
    }
  }

  // ---------------------------------------------------------------------
  // endSession

  /**
   * With another active room, closing a room deals its participants
   * round-robin over the other active rooms in array order: the `j`-th of
   * them (in array order) joins `active[j % m]` as an observer behind the
   * room's original occupants and behind those dealt there before it;
   * nobody else changes, and the closed room is left empty.
   */
  lemma EndSessionRedistributes(rooms: seq<Room>, ps: seq<Participant>, roomId: string)
    requires UniqueIds(ps)
    requires |ActiveRoomsExcept(rooms, roomId)| > 0
    ensures var active := ActiveRoomsExcept(rooms, roomId);
      var closing := InRoom(ps, roomId);
      var r := EndSessionParticipants(rooms, ps, roomId);
      && Closing(ps, closing, active, roomId)
      && PlacedState(ps, closing, active, roomId, |closing|, r)
      && QueuedState(ps, closing, active, roomId, |closing|, r)
      && (forall k :: 0 <= k < |r| ==> r[k].currentRoomId != roomId)
      && (forall k :: 0 <= k < |ps| && ps[k].currentRoomId == roomId ==>
            r[k].role == Observer && r[k].currentRoomId in RoomIds(active))
  {
    var active := ActiveRoomsExcept(rooms, roomId);
    var closing := InRoom(ps, roomId);
    var r := EndSessionParticipants(rooms, ps, roomId);
    InRoomClosing(rooms, ps, roomId);
    MoveClosingPlaced(ps, closing, active, roomId, |closing|);
    MoveClosingQueued(ps, closing, active, roomId, |closing|);
    forall k | 0 <= k < |ps| && ps[k].currentRoomId == roomId
      ensures r[k].role == Observer && r[k].currentRoomId != roomId && r[k].currentRoomId in RoomIds(active)
    {
      var j := SlotOf(ps, roomId, k);
      assert RoomIds(active)[j % |active|] == active[j % |active|].id;
    }
  }

  /**
   * Closing a room adds, removes and reorders nobody and keeps ids
   * distinct, every participant in an existing room, and at most one pilot
   * and one copilot per room; without another active room nobody moves.
   */
  lemma EndSessionKeepsInvariants(rooms: seq<Room>, ps: seq<Participant>, roomId: string)
    requires UniqueIds(ps)
    ensures var r := EndSessionParticipants(rooms, ps, roomId);
      && SameIdentity(r, ps)
      && UniqueIds(r)
      && (|ActiveRoomsExcept(rooms, roomId)| == 0 ==> r == ps)
      && (RoomRefsValid(rooms, ps) ==> RoomRefsValid(rooms, r))
      && (RolesWellFormed(ps) ==> RolesWellFormed(r))
  {
    var active := ActiveRoomsExcept(rooms, roomId);
    var r := EndSessionParticipants(rooms, ps, roomId);
    if |active| > 0 {
      EndSessionRedistributes(rooms, ps, roomId);
      SameIdentityUniqueIds(r, ps);
      if RoomRefsValid(rooms, ps) {
        ActiveRoomsExceptMembers(rooms, roomId);
        forall k | 0 <= k < |r| ensures r[k].currentRoomId in RoomIds(rooms) {
          if ps[k].currentRoomId == roomId {
            var a :| 0 <= a < |active| && RoomIds(active)[a] == r[k].currentRoomId;
            assert active[a] in active;
            RoomIdsMember(rooms, active[a]);
          }
        }
      }
      if RolesWellFormed(ps) {
        forall i, j | 0 <= i < j < |r| && r[i].currentRoomId == r[j].currentRoomId && r[i].role == r[j].role
          ensures r[i].role == Observer
        {
          if ps[i].currentRoomId != roomId && ps[j].currentRoomId != roomId {
            assert r[i] == ps[i] && r[j] == ps[j];
          }
        }
      }
    }
  }
}
