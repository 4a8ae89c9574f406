/**
 * The browser-side list of recently visited rooms: most recent first, one
 * entry per room id, at most five entries. The list lives in the browser's
 * storage; here it is a field of a store object.
 */
module Storage {
  import opened Wrappers
  import opened Types

  const MaxRecentRooms := 5

  /** A partial room: each present field overrides the stored room's field. */
  datatype RoomUpdate = RoomUpdate(
    id: Option<string>,
    name: Option<string>,
    deckType: Option<DeckType>,
    timerDuration: Option<Option<nat>>,
    createdAt: Option<string>,
    settings: Option<Option<RoomSettings>>,
    moderatorId: Option<Option<string>>)

  predicate HasRoom(rooms: seq<Room>, id: string) {
    exists i :: 0 <= i < |rooms| && rooms[i].id == id
  }

  /** The rooms whose id differs from `id`, in their original order. */
  function WithoutRoom(rooms: seq<Room>, id: string): (r: seq<Room>)
    ensures |r| <= |rooms|
    ensures !HasRoom(r, id)
    ensures forall x :: x in r <==> x in rooms && x.id != id
  {
    if |rooms| == 0 then []
    else
      var rest := WithoutRoom(rooms[1..], id);
      assert forall x :: x in rooms <==> x == rooms[0] || x in rooms[1..];
      if rooms[0].id == id then rest else [rooms[0]] + rest
  }

  /**
   * Filtering distributes over concatenation, so the kept rooms stay in
   * their old relative order and none is dropped or repeated.
   */
  lemma {:induction false} WithoutRoomConcat(rooms: seq<Room>, more: seq<Room>, id: string)
    ensures WithoutRoom(rooms + more, id) == WithoutRoom(rooms, id) + WithoutRoom(more, id)
  {
    if |rooms| > 0 {
      var head := if rooms[0].id == id then [] else [rooms[0]];
      var left, right := WithoutRoom(rooms[1..], id), WithoutRoom(more, id);
      assert (rooms + more)[0] == rooms[0];
      assert (rooms + more)[1..] == rooms[1..] + more;
      assert WithoutRoom(rooms + more, id) == head + WithoutRoom(rooms[1..] + more, id);
      WithoutRoomConcat(rooms[1..], more, id);
      assert WithoutRoom(rooms, id) == head + left;
      assert head + (left + right) == (head + left) + right;
    } else {
      assert rooms + more == more;
    }
  }

  /** A single room is kept exactly when its id differs. */
  lemma WithoutRoomSingle(room: Room, id: string)
    ensures WithoutRoom([room], id) == if room.id == id then [] else [room]
  {
    assert [room][1..] == [];
  }

  lemma {:induction false} WithoutAbsentRoom(rooms: seq<Room>, id: string)
    requires !HasRoom(rooms, id)
    ensures WithoutRoom(rooms, id) == rooms
  {
    if |rooms| > 0 {
      assert !HasRoom(rooms[1..], id) by {
        forall i | 0 <= i < |rooms[1..]| ensures rooms[1..][i].id != id {
          assert rooms[1..][i] == rooms[i + 1];
        }
      }
      WithoutAbsentRoom(rooms[1..], id);
      assert rooms == [rooms[0]] + rooms[1..];
    }
  }

  /** Removing by id, then keeping a prefix, is keeping a prefix, then removing. */
  lemma {:induction false} WithoutRoomPrefix(rooms: seq<Room>, id: string, n: nat)
    requires n <= |rooms| && !HasRoom(rooms, id)
    ensures WithoutRoom(rooms[..n], id) == rooms[..n]
  {
    assert !HasRoom(rooms[..n], id) by {
      forall i | 0 <= i < n ensures rooms[..n][i].id != id {
        assert rooms[..n][i] == rooms[i];
      }
    }
    WithoutAbsentRoom(rooms[..n], id);
  }

  function Take(rooms: seq<Room>, n: nat): (r: seq<Room>)
    ensures |r| == if |rooms| < n then |rooms| else n
    ensures r == rooms[..|r|]
  {
    if |rooms| <= n then rooms else rooms[..n]
  }

  /** The list after visiting `room`: it moves to the front and the list is cut to five. */
  function WithRecentRoom(rooms: seq<Room>, room: Room): seq<Room> {
    Take([room] + WithoutRoom(rooms, room.id), MaxRecentRooms)
  }

  /**
   * The visited room comes first and is the only entry with its id; the list
   * holds at most five rooms, and the rest is a prefix of the old list with
   * that id removed, in the old order.
   */
  lemma RecentRoomShape(rooms: seq<Room>, room: Room)
    ensures var r := WithRecentRoom(rooms, room);
      && 1 <= |r| <= MaxRecentRooms
      && r[0] == room
      && (forall i :: 1 <= i < |r| ==> r[i].id != room.id)
      && r[1..] == WithoutRoom(rooms, room.id)[..|r| - 1]
  {
    var r := WithRecentRoom(rooms, room);
    var rest := WithoutRoom(rooms, room.id);
    assert r == ([room] + rest)[..|r|];
    forall i | 1 <= i < |r| ensures r[i].id != room.id {
      assert r[i] == rest[i - 1];
      assert rest[i - 1] in rest;
    }
  }

  /** Visiting the same room twice in a row leaves the list as one visit does. */
  lemma RecentRoomIdempotent(rooms: seq<Room>, room: Room)
    ensures WithRecentRoom(WithRecentRoom(rooms, room), room) == WithRecentRoom(rooms, room)
  {
    var once := WithRecentRoom(rooms, room);
    var rest := WithoutRoom(rooms, room.id);
    RecentRoomShape(rooms, room);
    assert once == [once[0]] + once[1..];
    var tail := once[1..];
    assert tail == rest[..|once| - 1];
    WithoutRoomPrefix(rest, room.id, |once| - 1);
    assert WithoutRoom(once, room.id) == tail by {
      assert !HasRoom(tail, room.id) by {
        forall i | 0 <= i < |tail| ensures tail[i].id != room.id {
          assert tail[i] == once[i + 1];
        }
      }
      WithoutAbsentRoom(tail, room.id);
      assert once == [room] + tail;
      assert WithoutRoom(once, room.id) == WithoutRoom(tail, room.id) by {
        assert once[1..] == tail;
      }
    }
    assert [room] + tail == once;
  }

  /** A room with the present fields of the update written over it. */
  function Merge(room: Room, update: RoomUpdate): Room {
    Room(
      if update.id.Some? then update.id.value else room.id,
      if update.name.Some? then update.name.value else room.name,
      if update.deckType.Some? then update.deckType.value else room.deckType,
      if update.timerDuration.Some? then update.timerDuration.value else room.timerDuration,
      if update.createdAt.Some? then update.createdAt.value else room.createdAt,
      if update.settings.Some? then update.settings.value else room.settings,
      if update.moderatorId.Some? then update.moderatorId.value else room.moderatorId)
  }

  /** Every entry with the given id merged with the update; the others as they were. */
  function WithRoomUpdate(rooms: seq<Room>, roomId: string, update: RoomUpdate): (r: seq<Room>)
    ensures |r| == |rooms|
    ensures forall i :: 0 <= i < |rooms| ==> r[i] == if rooms[i].id == roomId then Merge(rooms[i], update) else rooms[i]
  {
    if |rooms| == 0 then []
    else [if rooms[0].id == roomId then Merge(rooms[0], update) else rooms[0]] + WithRoomUpdate(rooms[1..], roomId, update)
  }

  /** An update whose fields are all absent changes nothing; present fields win. */
  lemma MergeOverrides(room: Room, update: RoomUpdate)
    ensures var m := Merge(room, update);
      && (update.id.Some? ==> m.id == update.id.value)
      && (update.id.None? ==> m.id == room.id)
      && (update.createdAt.Some? ==> m.createdAt == update.createdAt.value)
      && (update.createdAt.None? ==> m.createdAt == room.createdAt)
      && (update.settings.Some? ==> m.settings == update.settings.value)
      && (update.settings.None? ==> m.settings == room.settings)
      && (update.moderatorId.Some? ==> m.moderatorId == update.moderatorId.value)
      && (update.moderatorId.None? ==> m.moderatorId == room.moderatorId)
      && (update.name.Some? ==> m.name == update.name.value)
      && (update.name.None? ==> m.name == room.name)
      && (update.deckType.Some? ==> m.deckType == update.deckType.value)
      && (update.deckType.None? ==> m.deckType == room.deckType)
      && (update.timerDuration.Some? ==> m.timerDuration == update.timerDuration.value)
      && (update.timerDuration.None? ==> m.timerDuration == room.timerDuration)
      && (update == RoomUpdate(None, None, None, None, None, None, None) ==> m == room)
  {
  }

  /** Updating an id that is not in the list leaves the list unchanged. */
  lemma {:induction false} UpdateUnknownRoom(rooms: seq<Room>, roomId: string, update: RoomUpdate)
    requires !HasRoom(rooms, roomId)
    ensures WithRoomUpdate(rooms, roomId, update) == rooms
  {
    if |rooms| > 0 {
      assert !HasRoom(rooms[1..], roomId) by {
        forall i | 0 <= i < |rooms[1..]| ensures rooms[1..][i].id != roomId {
          assert rooms[1..][i] == rooms[i + 1];
        }
      }
      UpdateUnknownRoom(rooms[1..], roomId, update);
      assert rooms == [rooms[0]] + rooms[1..];
    }
  }

  /**
   * The two browser-storage entries: the recent-rooms list and the user name.
   * An absent entry is `None`; a stored list is already decoded.
   */
  class RecentRoomsStore {
    var recentRooms: Option<seq<Room>>
    var userName: Option<string>

    constructor ()
      ensures recentRooms == None && userName == None
    {
      recentRooms := None;
      userName := None;
    }

    /** The stored list, or the empty list when nothing is stored. */
    function RecentRooms(): (rooms: seq<Room>)
      reads this
      ensures recentRooms.None? ==> rooms == []
      ensures recentRooms.Some? ==> rooms == recentRooms.value
    {
      if recentRooms.Some? then recentRooms.value else []
    }

    method GetRecentRooms() returns (rooms: seq<Room>)
      ensures rooms == RecentRooms()
    {
      if recentRooms.Some? {
        rooms := recentRooms.value;
      } else {
        rooms := [];
      }
    }

    method AddRecentRoom(room: Room)
      modifies this
      ensures recentRooms == Some(WithRecentRoom(old(RecentRooms()), room))
      ensures |RecentRooms()| <= MaxRecentRooms && RecentRooms()[0] == room
      ensures userName == old(userName)
    {
      var rooms := GetRecentRooms();
      var filtered := WithoutRoom(rooms, room.id);
      var updated := Take([room] + filtered, MaxRecentRooms);
      recentRooms := Some(updated);
    }

    method UpdateRecentRoom(roomId: string, update: RoomUpdate)
      modifies this
      ensures recentRooms == Some(WithRoomUpdate(old(RecentRooms()), roomId, update))
      ensures |RecentRooms()| == |old(RecentRooms())|
      ensures userName == old(userName)
    {
      var rooms := GetRecentRooms();
      recentRooms := Some(WithRoomUpdate(rooms, roomId, update));
    }

    method GetUserName() returns (name: Option<string>)
      ensures name == userName
    {
      name := userName;
    }

    method SetUserName(name: string)
      modifies this
      ensures userName == Some(name) && recentRooms == old(recentRooms)
    {
      userName := Some(name);
    }
  }
}
