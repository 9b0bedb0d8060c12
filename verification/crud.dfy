/** The meeting-room store behind the chat server: rooms and an append-only message log,
    with the three read queries and two inserts the server performs on it. The SQL database
    is modelled as two sequences held by one `Store` object. */
module Crud {
  import opened Wrappers
  import opened Models

  /** Inserting a room whose id is already taken violates the primary key. */
  datatype StoreError = DuplicateRoomId(id: int)

  /** The messages of `ms` that belong to room `roomId`, in log order. */
  function FilterRoom(ms: seq<Message>, roomId: int): (r: seq<Message>)
    ensures |r| <= |ms|
    ensures forall m :: m in r ==> m in ms && m.meetingRoomId == roomId
    ensures forall m :: m in ms && m.meetingRoomId == roomId ==> m in r
    ensures (forall m :: m in ms ==> m.meetingRoomId != roomId) ==> r == []
    ensures forall m {:trigger multiset(r)[m]} :: multiset(r)[m] == if m.meetingRoomId == roomId then multiset(ms)[m] else 0
  {
    if ms == [] then []
    else
      var last := ms[|ms| - 1];
      assert ms == ms[..|ms| - 1] + [last];
      FilterRoom(ms[..|ms| - 1], roomId) + (if last.meetingRoomId == roomId then [last] else [])
  }

  /** Appending one message to the log extends the listing of its own room by that message
      and leaves every other room's listing as it was. */
  lemma FilterRoomAppend(ms: seq<Message>, m: Message, roomId: int)
    ensures FilterRoom(ms + [m], roomId)
            == FilterRoom(ms, roomId) + (if m.meetingRoomId == roomId then [m] else [])
  {
    assert (ms + [m])[..|ms|] == ms;
  }

  /** Appending one message adds it to its own room's listing and changes no other listing. */
  lemma AppendListings(ms: seq<Message>, m: Message)
    ensures multiset(FilterRoom(ms + [m], m.meetingRoomId)) == multiset(FilterRoom(ms, m.meetingRoomId)) + multiset{m}
    ensures forall roomId :: roomId != m.meetingRoomId ==> FilterRoom(ms + [m], roomId) == FilterRoom(ms, roomId)
  {
    FilterRoomAppend(ms, m, m.meetingRoomId);
    forall roomId | roomId != m.meetingRoomId
      ensures FilterRoom(ms + [m], roomId) == FilterRoom(ms, roomId)
    {
      FilterRoomAppend(ms, m, roomId);
    }
  }

  ghost predicate SortedByTimestamp(ms: seq<Message>)
  {
    forall i, j :: 0 <= i < j < |ms| ==> ms[i].timestamp <= ms[j].timestamp
  }

  /** Places `m` into the timestamp-ordered `ms` after every message that is not later than it. */
  function InsertByTimestamp(m: Message, ms: seq<Message>): (r: seq<Message>)
    requires SortedByTimestamp(ms)
    ensures SortedByTimestamp(r)
    ensures multiset(r) == multiset(ms) + multiset{m}
    ensures forall x :: x in r ==> x == m || x in ms
  {
    if ms == [] then [m]
    else if m.timestamp < ms[0].timestamp then
      PrependSorted(m, ms);
      [m] + ms
    else
      var rest := InsertByTimestamp(m, ms[1..]);
      InsertAfterHead(m, ms, rest);
      [ms[0]] + rest
  }

  /** A message not later than any of a sorted list can go in front of it. */
  lemma PrependSorted(h: Message, ms: seq<Message>)
    requires SortedByTimestamp(ms)
    requires ms == [] || h.timestamp <= ms[0].timestamp
    ensures SortedByTimestamp([h] + ms)
  {
  }

  /** `m` is not earlier than the head of `ms`: the head stays first, and `m` goes into the rest. */
  lemma InsertAfterHead(m: Message, ms: seq<Message>, rest: seq<Message>)
    requires ms != [] && SortedByTimestamp(ms) && ms[0].timestamp <= m.timestamp
    requires SortedByTimestamp(rest)
    requires multiset(rest) == multiset(ms[1..]) + multiset{m}
    requires forall x :: x in rest ==> x == m || x in ms[1..]
    ensures SortedByTimestamp([ms[0]] + rest)
    ensures multiset([ms[0]] + rest) == multiset(ms) + multiset{m}
    ensures forall x :: x in [ms[0]] + rest ==> x == m || x in ms
  {
    assert ms == [ms[0]] + ms[1..];
    var r := [ms[0]] + rest;
    forall i, j | 0 <= i < j < |r|
      ensures r[i].timestamp <= r[j].timestamp
    {
      if i == 0 {
        assert r[j] in rest;
      }
    }
  }

  /** The `ORDER BY timestamp` of the message query: a stable insertion sort. */
  function SortByTimestamp(ms: seq<Message>): (r: seq<Message>)
    ensures SortedByTimestamp(r)
    ensures multiset(r) == multiset(ms)
  {
    if ms == [] then []
    else
      assert ms == ms[..|ms| - 1] + [ms[|ms| - 1]];
      InsertByTimestamp(ms[|ms| - 1], SortByTimestamp(ms[..|ms| - 1]))
  }

  /** The first room of `rooms` whose id is `id`. */
  function FirstRoomWithId(rooms: seq<MeetingRoom>, id: int): (r: Option<MeetingRoom>)
    ensures r.Some? ==> r.value.id == id && r.value in rooms
    ensures r.None? <==> forall room :: room in rooms ==> room.id != id
  {
    if rooms == [] then None
    else if rooms[0].id == id then Some(rooms[0])
    else
      assert rooms == [rooms[0]] + rooms[1..];
      FirstRoomWithId(rooms[1..], id)
  }

  class Store {
    var rooms: seq<MeetingRoom>
    var messages: seq<Message>

    /** Room ids are a primary key, and message ids are handed out 1, 2, 3, ... in insertion order. */
    ghost predicate Valid()
      reads this
    {
      && (forall i, j :: 0 <= i < j < |rooms| ==> rooms[i].id != rooms[j].id)
      && (forall i :: 0 <= i < |messages| ==> messages[i].id == i + 1)
    }

    constructor ()
      ensures Valid()
      ensures rooms == [] && messages == []
    {
      rooms := [];
      messages := [];
    }

    /** `meeting_rooms`: every stored room, each of which the by-id query finds. */
    function MeetingRooms(): (r: seq<MeetingRoom>)
      requires Valid()
      reads this
      ensures |r| == |rooms|
      ensures forall room :: room in rooms ==> room in r
      ensures forall i :: 0 <= i < |r| ==> GetMeetingRoomById(r[i].id) == Some(r[i])
    {
      assert forall i :: 0 <= i < |rooms| ==> GetMeetingRoomById(rooms[i].id) == Some(rooms[i]) by {
        forall i | 0 <= i < |rooms|
          ensures GetMeetingRoomById(rooms[i].id) == Some(rooms[i])
        {
          FirstRoomUnique(rooms, i);
        }
      }
      rooms
    }

    /** `get_meeting_room_by_id`: the room with that id, or nothing when none is stored. */
    function GetMeetingRoomById(id: int): (r: Option<MeetingRoom>)
      reads this
      ensures r.Some? ==> r.value.id == id && r.value in rooms
      ensures r.None? <==> forall room :: room in rooms ==> room.id != id
    {
      FirstRoomWithId(rooms, id)
    }

    /** `create_meeting_room`: adds one room with the given id, unless the id is already taken,
        in which case the insert is refused and nothing changes. */
    method CreateMeetingRoom(id: int) returns (r: Result<MeetingRoom, StoreError>)
      requires Valid()
      modifies this
      ensures Valid()
      ensures messages == old(messages)
      ensures old(GetMeetingRoomById(id)).Some? ==>
                r == Failure(DuplicateRoomId(id)) && rooms == old(rooms)
      ensures old(GetMeetingRoomById(id)).None? ==>
                r == Success(MeetingRoom(id)) && rooms == old(rooms) + [MeetingRoom(id)]
      ensures r.Success? && (forall m :: m in messages ==> m.meetingRoomId != id) ==> Messages(id) == []
    {
      var existing := GetMeetingRoomById(id);
      if existing.Some? {
        r := Failure(DuplicateRoomId(id));
      } else {
        rooms := rooms + [MeetingRoom(id)];
        r := Success(MeetingRoom(id));
      }
    }

    /** `create_message`: appends one message, stamped with the next id and the time `now`. */
    method CreateMessage(userName: string, text: string, role: string, meetingRoomId: int, now: nat)
      returns (m: Message)
      requires Valid()
      modifies this
      ensures Valid()
      ensures m == Message(|old(messages)| + 1, userName, text, role, now, meetingRoomId)
      ensures messages == old(messages) + [m]
      ensures rooms == old(rooms)
      ensures multiset(Messages(meetingRoomId)) == multiset(old(Messages(meetingRoomId))) + multiset{m}
      ensures forall roomId :: roomId != meetingRoomId ==> Messages(roomId) == old(Messages(roomId))
    {
      m := Message(|messages| + 1, userName, text, role, now, meetingRoomId);
      AppendListings(messages, m);
      messages := messages + [m];
    }

    /** `messages`: the messages of one room, ordered by timestamp. Nothing from another room
        appears and no message of the room is dropped. */
    function Messages(roomId: int): (r: seq<Message>)
      reads this
      ensures SortedByTimestamp(r)
      ensures multiset(r) == multiset(FilterRoom(messages, roomId))
      ensures forall m :: m in r <==> m in messages && m.meetingRoomId == roomId
    {
      var r := SortByTimestamp(FilterRoom(messages, roomId));
      assert forall m :: m in r <==> m in multiset(FilterRoom(messages, roomId));
      r
    }
  }

  /** With distinct ids, the first room carrying `rooms[i]`'s id is `rooms[i]` itself. */
  lemma {:induction false} FirstRoomUnique(rooms: seq<MeetingRoom>, i: nat)
    requires i < |rooms|
    requires forall a, b :: 0 <= a < b < |rooms| ==> rooms[a].id != rooms[b].id
    ensures FirstRoomWithId(rooms, rooms[i].id) == Some(rooms[i])
  {
    if i > 0 {
      assert rooms[0].id != rooms[i].id;
      FirstRoomUnique(rooms[1..], i - 1);
    }
  }
}
