/**
 * Queries over the participant array that the session context builds
 * from JavaScript's array methods: `filter` by room, `find` by role,
 * `findIndex` by id, `Math.max` over positions, and the stable sort
 * that picks the next copilot.
 */
module Roster {
  import opened Models

  /** No two participants share an id. */
  predicate UniqueIds(ps: seq<Participant>) {
    forall j, k :: 0 <= j < k < |ps| ==> ps[j].id != ps[k].id
  }

  /**
   * The same people at the same indices: only `role`, `currentRoomId`
   * and `position` may differ between `a` and `b`.
   */
  predicate SameIdentity(a: seq<Participant>, b: seq<Participant>) {
    && |a| == |b|
    && forall k :: 0 <= k < |a| ==>
         a[k].id == b[k].id && a[k].name == b[k].name && a[k].slackHandle == b[k].slackHandle
  }

  lemma SameIdentityTrans(a: seq<Participant>, b: seq<Participant>, c: seq<Participant>)
    requires SameIdentity(a, b) && SameIdentity(b, c)
    ensures SameIdentity(a, c)
  {
  }

  /** Distinct ids survive any change that keeps identities. */
  lemma SameIdentityUniqueIds(a: seq<Participant>, b: seq<Participant>)
    requires SameIdentity(a, b) && UniqueIds(b)
    ensures UniqueIds(a)
  {
    forall j, k | 0 <= j < k < |a| ensures a[j].id != a[k].id {
      assert a[j].id == b[j].id && a[k].id == b[k].id;
    }
  }

  /** `rooms.map(r => r.id)`. */
  function RoomIds(rooms: seq<Room>): seq<string> {
    seq(|rooms|, k requires 0 <= k < |rooms| => rooms[k].id)
  }

  lemma RoomIdsMember(rooms: seq<Room>, room: Room)
    requires room in rooms
    ensures room.id in RoomIds(rooms)
  {
    var i :| 0 <= i < |rooms| && rooms[i] == room;
    assert RoomIds(rooms)[i] == room.id;
  }

  /** Every participant's `currentRoomId` names a room. */
  predicate RoomRefsValid(rooms: seq<Room>, ps: seq<Participant>) {
    forall k :: 0 <= k < |ps| ==> ps[k].currentRoomId in RoomIds(rooms)
  }

  /** Within a room, at most one pilot and at most one copilot. */
  predicate RolesWellFormed(ps: seq<Participant>) {
    forall j, k ::
      0 <= j < k < |ps| && ps[j].currentRoomId == ps[k].currentRoomId && ps[j].role == ps[k].role
      ==> ps[j].role == Observer
  }

  /** `ps.map(p => p.id)`. */
  function Ids(ps: seq<Participant>): seq<string> {
    seq(|ps|, k requires 0 <= k < |ps| => ps[k].id)
  }

  /** `ps.filter(p => p.currentRoomId === roomId)`. */
  function InRoom(ps: seq<Participant>, roomId: string): (r: seq<Participant>)
    ensures |r| <= |ps|
  {
    if ps == [] then []
    else if ps[0].currentRoomId == roomId then [ps[0]] + InRoom(ps[1..], roomId)
    else InRoom(ps[1..], roomId)
  }

  /** The filter keeps only participants of `ps` who are in the room. */
  lemma {:induction false} InRoomSound(ps: seq<Participant>, roomId: string)
    ensures forall p :: p in InRoom(ps, roomId) ==> p in ps && p.currentRoomId == roomId
  {
    if ps != [] {
      InRoomSound(ps[1..], roomId);
      assert forall p :: p in ps[1..] ==> p in ps;
    }
  }

  /** Everyone of `ps` in the room is kept by the filter. */
  lemma {:induction false} InRoomComplete(ps: seq<Participant>, roomId: string)
    ensures forall p :: p in ps && p.currentRoomId == roomId ==> p in InRoom(ps, roomId)
  {
    if ps != [] {
      InRoomComplete(ps[1..], roomId);
      forall p | p in ps && p.currentRoomId == roomId ensures p in InRoom(ps, roomId) {
        if p != ps[0] {
          assert p in ps[1..];
        }
      }
    }
  }

  /** Filtering distributes over concatenation. */
  lemma {:induction false} InRoomAppend(s: seq<Participant>, t: seq<Participant>, roomId: string)
    ensures InRoom(s + t, roomId) == InRoom(s, roomId) + InRoom(t, roomId)
  {
    if s != [] {
      assert (s + t)[1..] == s[1..] + t;
      InRoomAppend(s[1..], t, roomId);
    } else {
      assert s + t == t;
    }
  }

  /** The filter keeps everything when everyone is in the room. */
  lemma {:induction false} InRoomAll(ps: seq<Participant>, roomId: string)
    requires forall k :: 0 <= k < |ps| ==> ps[k].currentRoomId == roomId
    ensures InRoom(ps, roomId) == ps
  {
    if ps != [] {
      InRoomAll(ps[1..], roomId);
    }
  }

  /** The filter keeps nothing when nobody is in the room. */
  lemma {:induction false} InRoomNone(ps: seq<Participant>, roomId: string)
    requires forall k :: 0 <= k < |ps| ==> ps[k].currentRoomId != roomId
    ensures InRoom(ps, roomId) == []
  {
    if ps != [] {
      InRoomNone(ps[1..], roomId);
    }
  }

  /** A filter of participants with distinct ids has distinct ids. */
  lemma {:induction false} InRoomUniqueIds(ps: seq<Participant>, roomId: string)
    requires UniqueIds(ps)
    ensures UniqueIds(InRoom(ps, roomId))
  {
    if ps != [] {
      InRoomUniqueIds(ps[1..], roomId);
      InRoomSound(ps[1..], roomId);
      var rest := InRoom(ps[1..], roomId);
      if ps[0].currentRoomId == roomId {
        var r := [ps[0]] + rest;
        forall j, k | 0 <= j < k < |r| ensures r[j].id != r[k].id {
          if j == 0 {
            assert r[k] in ps[1..];
          }
        }
      }
    }
  }

  /** `ps.find(p => p.role === role)`. */
  function FindRole(ps: seq<Participant>, role: Role): (r: Option<Participant>)
    ensures r.Some? ==> r.value.role == role
  {
    if ps == [] then None
    else if ps[0].role == role then Some(ps[0])
    else FindRole(ps[1..], role)
  }

  /** What `find` returns is a member of the list holding the role. */
  lemma {:induction false} FindRoleSound(ps: seq<Participant>, role: Role)
    ensures FindRole(ps, role).Some? ==> FindRole(ps, role).value in ps && FindRole(ps, role).value.role == role
  {
    if ps != [] && ps[0].role != role {
      FindRoleSound(ps[1..], role);
    }
  }

  /**
   * `find` returns nothing exactly when no participant holds the role, and
   * otherwise the first one that does.
   */
  lemma {:induction false} FindRoleFirst(ps: seq<Participant>, role: Role)
    ensures FindRole(ps, role).None? <==> forall p :: p in ps ==> p.role != role
    ensures FindRole(ps, role).Some? ==>
      exists k :: 0 <= k < |ps| && ps[k] == FindRole(ps, role).value &&
        forall j :: 0 <= j < k ==> ps[j].role != role
  {
    if ps != [] && ps[0].role != role {
      FindRoleFirst(ps[1..], role);
      var r := FindRole(ps[1..], role);
      assert forall p :: p in ps ==> p == ps[0] || p in ps[1..];
      if r.Some? {
        var k :| 0 <= k < |ps[1..]| && ps[1..][k] == r.value && forall j :: 0 <= j < k ==> ps[1..][j].role != role;
        assert ps[k + 1] == r.value;
      }
    }
  }

  /** `ps.findIndex(p => p.id === id)`: the first index holding `id`, or -1. */
  function IndexOfId(ps: seq<Participant>, id: string): (k: int)
    ensures -1 <= k < |ps|
  {
    if ps == [] then -1
    else if ps[0].id == id then 0
    else
      var k := IndexOfId(ps[1..], id);
      if k == -1 then -1 else k + 1
  }

  /** `findIndex` gives the first index holding `id`, and -1 exactly when no index does. */
  lemma {:induction false} IndexOfIdFirst(ps: seq<Participant>, id: string)
    ensures var k := IndexOfId(ps, id);
      && (k >= 0 ==> ps[k].id == id && forall j :: 0 <= j < k ==> ps[j].id != id)
      && (k == -1 ==> forall j :: 0 <= j < |ps| ==> ps[j].id != id)
  {
    if ps != [] && ps[0].id != id {
      IndexOfIdFirst(ps[1..], id);
    }
  }

  /** With distinct ids, looking up the id found at index `k` gives `k` back. */
  lemma IndexOfMember(ps: seq<Participant>, k: int)
    requires UniqueIds(ps)
    requires 0 <= k < |ps|
    ensures IndexOfId(ps, ps[k].id) == k
  {
    IndexOfIdFirst(ps, ps[k].id);
    var i := IndexOfId(ps, ps[k].id);
    assert i != -1;
  }

  /** `findIndex` by id only looks at ids. */
  lemma IndexOfSameIdentity(a: seq<Participant>, b: seq<Participant>, id: string)
    requires SameIdentity(a, b)
    ensures IndexOfId(a, id) == IndexOfId(b, id)
  {
    IndexOfIdFirst(a, id);
    IndexOfIdFirst(b, id);
    var i, j := IndexOfId(a, id), IndexOfId(b, id);
    if i != -1 && j != -1 {
      assert !(i < j) && !(j < i);
    }
  }

  /** `Math.max(...ps.map(p => p.position), -1)`. */
  function MaxPosition(ps: seq<Participant>): (m: int)
    ensures m >= -1
  {
    if ps == [] then -1
    else
      var rest := MaxPosition(ps[1..]);
      if ps[0].position > rest then ps[0].position else rest
  }

  /** The maximum is at least -1, bounds every position and, above -1, is one of them. */
  lemma {:induction false} MaxPositionBounds(ps: seq<Participant>)
    ensures MaxPosition(ps) >= -1
    ensures forall p :: p in ps ==> p.position <= MaxPosition(ps)
    ensures MaxPosition(ps) == -1 || exists p :: p in ps && p.position == MaxPosition(ps)
  {
    if ps != [] {
      MaxPositionBounds(ps[1..]);
      assert forall p :: p in ps ==> p == ps[0] || p in ps[1..];
    }
  }

  /**
   * `Math.max(...ps.filter(p => p.currentRoomId === roomId).map(p => p.position), -1) + 1`.
   */
  function NextPosition(ps: seq<Participant>, roomId: string): (n: int)
    ensures n >= 0
  {
    MaxPosition(InRoom(ps, roomId)) + 1
  }

  /**
   * The position one past the back of the room's queue: non-negative,
   * above everyone in the room, and either 0 or one past somebody's position.
   */
  lemma NextPositionBehind(ps: seq<Participant>, roomId: string)
    ensures NextPosition(ps, roomId) >= 0
    ensures forall p :: p in ps && p.currentRoomId == roomId ==> p.position < NextPosition(ps, roomId)
    ensures NextPosition(ps, roomId) == 0 ||
      exists p :: p in ps && p.currentRoomId == roomId && p.position == NextPosition(ps, roomId) - 1
  {
    MaxPositionBounds(InRoom(ps, roomId));
    InRoomComplete(ps, roomId);
    InRoomSound(ps, roomId);
  }

  /** The index form of the bound above: every entry in the room is in front of the next position. */
  lemma NextPositionAboveAll(ps: seq<Participant>, roomId: string)
    ensures forall k :: 0 <= k < |ps| && ps[k].currentRoomId == roomId ==> ps[k].position < NextPosition(ps, roomId)
  {
    NextPositionBehind(ps, roomId);
    forall k | 0 <= k < |ps| && ps[k].currentRoomId == roomId ensures ps[k].position < NextPosition(ps, roomId) {
      assert ps[k] in ps;
    }
  }

  /**
   * `ps.filter(p => p.role === 'observer').sort((a, b) => a.position - b.position)[0]`.
   * The sort is stable, so among equal positions the earliest in `ps` wins.
   */
  function MinObserver(ps: seq<Participant>): (r: Option<Participant>)
    ensures r.Some? ==> r.value.role == Observer
  {
    if ps == [] then None
    else
      var rest := MinObserver(ps[1..]);
      if ps[0].role == Observer && (rest.None? || ps[0].position <= rest.value.position) then
        Some(ps[0])
      else
        rest
  }

  /** The next copilot is an observer of the list. */
  lemma {:induction false} MinObserverSound(ps: seq<Participant>)
    ensures MinObserver(ps).Some? ==> MinObserver(ps).value in ps && MinObserver(ps).value.role == Observer
  {
    if ps != [] {
      MinObserverSound(ps[1..]);
    }
  }

  /** No next copilot exactly when there is no observer; otherwise none has a lower position. */
  lemma {:induction false} MinObserverLowest(ps: seq<Participant>)
    ensures MinObserver(ps).None? <==> forall p :: p in ps ==> p.role != Observer
    ensures MinObserver(ps).Some? ==>
      forall p :: p in ps && p.role == Observer ==> MinObserver(ps).value.position <= p.position
  {
    if ps != [] {
      MinObserverLowest(ps[1..]);
      assert forall p :: p in ps ==> p == ps[0] || p in ps[1..];
    }
  }

  /** Every observer before the next copilot in array order has a strictly higher position. */
  lemma {:induction false} MinObserverStable(ps: seq<Participant>)
    ensures MinObserver(ps).Some? ==>
      exists k :: 0 <= k < |ps| && ps[k] == MinObserver(ps).value &&
        forall j :: 0 <= j < k && ps[j].role == Observer ==> ps[j].position > MinObserver(ps).value.position
  {
    if ps != [] {
      MinObserverStable(ps[1..]);
      var rest := MinObserver(ps[1..]);
      if rest.Some? && MinObserver(ps) == rest {
        var k :| 0 <= k < |ps[1..]| && ps[1..][k] == rest.value &&
          forall j :: 0 <= j < k && ps[1..][j].role == Observer ==> ps[1..][j].position > rest.value.position;
        assert ps[k + 1] == rest.value;
      }
    }
  }
}
