/**
 * The fixed roster the session starts from (`generateMockData`,
 * src/lib/models.ts): six active rooms, one leader per room, and five
 * participants per room seated as pilot, copilot and three observers at
 * positions 0 to 4.
 */
module MockData {
  import opened Decimal
  import opened Models
  import opened Roster

  const ROOM_COUNT: nat := 6
  const ROOM_SIZE: nat := 5

  function RoomId(index: nat): string {
    "room-" + NatToString(index + 1)
  }

  function LeaderId(index: nat): string {
    "leader-" + NatToString(index + 1)
  }

  /** The id of the participant numbered `n`, counting from 1 across all rooms. */
  function ParticipantId(n: nat): string {
    "participant-" + NatToString(n)
  }

  /** The role of the `seat`-th participant of a room: seat 0 pilots, seat 1 copilots. */
  function SeatRole(seat: nat): Role {
    if seat == 0 then Pilot else if seat == 1 then Copilot else Observer
  }

  /** Room `index` as the `map` over the six slots creates it, before anyone is seated. */
  function EmptyRoom(index: nat): Room {
    Room(RoomId(index), "Room " + NatToString(index + 1), LeaderId(index), [], Active)
  }

  /** The ids pushed onto room `index`'s list for its first `n` seats. */
  function SeatIds(index: nat, n: nat): seq<string> {
    seq(n, seat requires 0 <= seat => ParticipantId(index * ROOM_SIZE + seat + 1))
  }

  /** Room `index` once its five participants have been pushed onto its list. */
  function MockRoom(index: nat): Room {
    EmptyRoom(index).(participants := SeatIds(index, ROOM_SIZE))
  }

  function MockLeader(index: nat): Leader {
    Leader(LeaderId(index), "Leader " + NatToString(index + 1), "@leader" + NatToString(index + 1),
      RoomId(index), "https://zoom.us/j/meeting" + NatToString(index + 1))
  }

  /** The participant at index `k` of the array: seat `k % 5` of room `k / 5`. */
  function MockParticipant(k: nat): (p: Participant)
    ensures 0 <= p.position < ROOM_SIZE
    ensures p.role == Pilot <==> p.position == 0
    ensures p.role == Copilot <==> p.position == 1
  {
    var roomIndex := k / ROOM_SIZE;
    var seat := k % ROOM_SIZE;
    var n := k + 1;
    Participant(ParticipantId(n), "Participant " + NatToString(n), "@participant" + NatToString(n),
      RoomId(roomIndex), SeatRole(seat), seat)
  }

  function MockRooms(): (r: seq<Room>)
    ensures |r| == ROOM_COUNT
    ensures forall i :: 0 <= i < |r| ==> r[i].status == Active && |r[i].participants| == ROOM_SIZE
  {
    seq(ROOM_COUNT, index requires 0 <= index => MockRoom(index))
  }

  function MockLeaders(): (r: seq<Leader>)
    ensures |r| == ROOM_COUNT
    ensures forall i :: 0 <= i < |r| ==> r[i].roomId == MockRooms()[i].id && MockRooms()[i].leaderId == r[i].id
  {
    seq(ROOM_COUNT, index requires 0 <= index => MockLeader(index))
  }

  /** The first `n` participants of the array. */
  function ParticipantsUpTo(n: nat): seq<Participant> {
    seq(n, k requires 0 <= k => MockParticipant(k))
  }

  function MockParticipants(): seq<Participant> {
    ParticipantsUpTo(ROOM_COUNT * ROOM_SIZE)
  }

  /** Pushing the next participant extends the prefix by one. */
  lemma ParticipantsUpToPush(m: nat)
    ensures ParticipantsUpTo(m) + [MockParticipant(m)] == ParticipantsUpTo(m + 1)
  {
  }

  /** Pushing the next id onto a room's list extends its seats by one. */
  lemma SeatIdsPush(index: nat, n: nat)
    ensures SeatIds(index, n) + [ParticipantId(index * ROOM_SIZE + n + 1)] == SeatIds(index, n + 1)
  {
  }

  /** The participant pushed for seat `i` of room `roomIndex` is the one numbered `5 * roomIndex + i + 1`. */
  lemma SeatParticipant(roomIndex: nat, i: nat)
    requires i < ROOM_SIZE
    ensures var n := roomIndex * ROOM_SIZE + i + 1;
      MockParticipant(roomIndex * ROOM_SIZE + i) ==
        Participant(ParticipantId(n), "Participant " + NatToString(n), "@participant" + NatToString(n),
          RoomId(roomIndex), SeatRole(i), i)
  {
    assert (roomIndex * ROOM_SIZE + i) / ROOM_SIZE == roomIndex;
    assert (roomIndex * ROOM_SIZE + i) % ROOM_SIZE == i;
  }

  /**
   * `generateMockData()`: the rooms and leaders built by `map`, then each
   * room's five participants pushed in turn onto the participant array and
   * their ids onto the room's list.
   */
  method GenerateMockData() returns (rooms: seq<Room>, leaders: seq<Leader>, participants: seq<Participant>)
    ensures rooms == MockRooms()
    ensures leaders == MockLeaders()
    ensures participants == MockParticipants()
  {
    rooms := seq(ROOM_COUNT, index requires 0 <= index => EmptyRoom(index));
    leaders := seq(ROOM_COUNT, index requires 0 <= index => MockLeader(index));
    participants := [];
    var roomIndex := 0;
    while roomIndex < |rooms|
      invariant 0 <= roomIndex <= ROOM_COUNT == |rooms|
      invariant participants == ParticipantsUpTo(roomIndex * ROOM_SIZE)
      invariant forall index :: 0 <= index < roomIndex ==> rooms[index] == MockRoom(index)
      invariant forall index :: roomIndex <= index < ROOM_COUNT ==> rooms[index] == EmptyRoom(index)
    {
      var i := 0;
      while i < ROOM_SIZE
        invariant 0 <= i <= ROOM_SIZE && |rooms| == ROOM_COUNT
        invariant participants == ParticipantsUpTo(roomIndex * ROOM_SIZE + i)
        invariant rooms[roomIndex] == EmptyRoom(roomIndex).(participants := SeatIds(roomIndex, i))
        invariant forall index :: 0 <= index < ROOM_COUNT && index != roomIndex ==>
          rooms[index] == if index < roomIndex then MockRoom(index) else EmptyRoom(index)
      {
        var n := roomIndex * ROOM_SIZE + i + 1;
        SeatParticipant(roomIndex, i);
        ParticipantsUpToPush(n - 1);
        SeatIdsPush(roomIndex, i);
        var participantId := ParticipantId(n);
        var role := Observer;
        if i == 0 { role := Pilot; }
        if i == 1 { role := Copilot; }
        participants := participants + [Participant(participantId, "Participant " + NatToString(n),
          "@participant" + NatToString(n), rooms[roomIndex].id, role, i)];
        rooms := rooms[roomIndex := rooms[roomIndex].(participants := rooms[roomIndex].participants + [participantId])];
        i := i + 1;
      }
      roomIndex := roomIndex + 1;
    }
  }

  // ---------------------------------------------------------------------
  // Properties of the generated data

  /** Different rooms get different ids. */
  lemma RoomIdInjective(a: nat, b: nat)
    ensures RoomId(a) == RoomId(b) ==> a == b
  {
    PrefixedInjective("room-", a + 1, b + 1);
  }

  /** The six rooms have distinct ids, and each room's leader is the leader generated for it. */
  lemma MockRoomsDistinct()
    ensures var rooms := MockRooms();
      && |rooms| == ROOM_COUNT
      && (forall j, k :: 0 <= j < k < |rooms| ==> rooms[j].id != rooms[k].id)
      && (forall k :: 0 <= k < |rooms| ==> rooms[k].status == Active)
      && (forall k :: 0 <= k < |rooms| ==>
            MockLeaders()[k].id == rooms[k].leaderId && MockLeaders()[k].roomId == rooms[k].id)
  {
    forall j, k | 0 <= j < k < ROOM_COUNT ensures MockRooms()[j].id != MockRooms()[k].id {
      RoomIdInjective(j, k);
    }
  }

  /** The thirty participants have distinct ids. */
  lemma MockParticipantsUniqueIds()
    ensures |MockParticipants()| == ROOM_COUNT * ROOM_SIZE
    ensures UniqueIds(MockParticipants())
  {
    var ps := MockParticipants();
    forall j, k | 0 <= j < k < |ps| ensures ps[j].id != ps[k].id {
      PrefixedInjective("participant-", j + 1, k + 1);
    }
  }

  /** Every participant is seated in one of the generated rooms. */
  lemma MockRoomRefs()
    ensures RoomRefsValid(MockRooms(), MockParticipants())
  {
    var ps := MockParticipants();
    forall k | 0 <= k < |ps| ensures ps[k].currentRoomId in RoomIds(MockRooms()) {
      assert RoomIds(MockRooms())[k / ROOM_SIZE] == ps[k].currentRoomId;
    }
  }

  /** Each room starts with exactly one pilot and one copilot. */
  lemma MockRolesWellFormed()
    ensures RolesWellFormed(MockParticipants())
  {
    var ps := MockParticipants();
    forall j, k | 0 <= j < k < |ps| && ps[j].currentRoomId == ps[k].currentRoomId && ps[j].role == ps[k].role
      ensures ps[j].role == Observer
    {
      RoomIdInjective(j / ROOM_SIZE, k / ROOM_SIZE);
    }
  }

  /** The participants of room `index`: the block of five the inner loop pushes for it. */
  function Block(index: nat): seq<Participant> {
    seq(ROOM_SIZE, seat requires 0 <= seat => MockParticipant(index * ROOM_SIZE + seat))
  }

  /** The array grows block by block. */
  lemma ParticipantsUpToBlocks(n: nat)
    ensures ParticipantsUpTo((n + 1) * ROOM_SIZE) == ParticipantsUpTo(n * ROOM_SIZE) + Block(n)
  {
    var a, b := ParticipantsUpTo((n + 1) * ROOM_SIZE), ParticipantsUpTo(n * ROOM_SIZE) + Block(n);
    forall k | 0 <= k < |a| ensures a[k] == b[k] {
      if k >= n * ROOM_SIZE {
        assert b[k] == Block(n)[k - n * ROOM_SIZE];
      }
    }
  }

  /** Seat `seat` of block `index` is the participant generated for that room and seat. */
  lemma BlockSeats(index: nat)
    ensures |Block(index)| == ROOM_SIZE
    ensures forall seat :: 0 <= seat < ROOM_SIZE ==>
      && Block(index)[seat].id == ParticipantId(index * ROOM_SIZE + seat + 1)
      && Block(index)[seat].currentRoomId == RoomId(index)
      && Block(index)[seat].role == SeatRole(seat)
      && Block(index)[seat].position == seat
  {
    forall seat | 0 <= seat < ROOM_SIZE
      ensures Block(index)[seat] == MockParticipant(index * ROOM_SIZE + seat)
      ensures (index * ROOM_SIZE + seat) / ROOM_SIZE == index
      ensures (index * ROOM_SIZE + seat) % ROOM_SIZE == seat
    {
    }
  }

  /** The filter for room `r` keeps all of block `r` and nothing of any other block. */
  lemma BlockInRoom(index: nat, r: nat)
    ensures InRoom(Block(index), RoomId(r)) == if index == r then Block(index) else []
  {
    BlockSeats(index);
    RoomIdInjective(index, r);
    if index == r {
      InRoomAll(Block(index), RoomId(r));
    } else {
      InRoomNone(Block(index), RoomId(r));
    }
  }

  /** Among the first `n` blocks, the filter for room `r` finds its own block or nothing. */
  lemma {:induction false} MockPrefixInRoom(r: nat, n: nat)
    ensures InRoom(ParticipantsUpTo(n * ROOM_SIZE), RoomId(r)) == if r < n then Block(r) else []
  {
    if n == 0 {
      assert ParticipantsUpTo(0) == [];
    } else {
      var front, block := ParticipantsUpTo((n - 1) * ROOM_SIZE), Block(n - 1);
      assert InRoom(ParticipantsUpTo(n * ROOM_SIZE), RoomId(r)) == InRoom(front, RoomId(r)) + InRoom(block, RoomId(r)) by {
        ParticipantsUpToBlocks(n - 1);
        InRoomAppend(front, block, RoomId(r));
      }
      assert InRoom(front, RoomId(r)) == if r < n - 1 then Block(r) else [] by {
        MockPrefixInRoom(r, n - 1);
      }
      assert InRoom(block, RoomId(r)) == if n - 1 == r then block else [] by {
        BlockInRoom(n - 1, r);
      }
    }
  }

  /**
   * The filter for a room finds exactly the five participants whose ids the
   * room lists, in that order, seated as pilot, copilot and three observers
   * at positions 0 to 4.
   */
  lemma MockRoomRoster(r: nat)
    requires r < ROOM_COUNT
    ensures var inRoom := InRoom(MockParticipants(), RoomId(r));
      && Ids(inRoom) == MockRooms()[r].participants
      && |inRoom| == ROOM_SIZE
      && (forall seat :: 0 <= seat < ROOM_SIZE ==> inRoom[seat].role == SeatRole(seat) && inRoom[seat].position == seat)
  {
    MockPrefixInRoom(r, ROOM_COUNT);
    BlockSeats(r);
  }
}
