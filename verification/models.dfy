/** The two database records of the meeting-room chat: a room and a message in it. */
module Models {

  /** A meeting room. Its `messages` relationship is not stored here: it is the set of
      messages whose `meetingRoomId` names the room (see `Crud.Store.Messages`). */
  datatype MeetingRoom = MeetingRoom(id: int)

  /** A chat message. `timestamp` is the time at which the store persisted it, as a
      natural number of clock ticks; `id` is the key the store assigns on insertion. */
  datatype Message = Message(
    id: nat,
    userName: string,
    text: string,
    role: string,
    timestamp: nat,
    meetingRoomId: int)
}
