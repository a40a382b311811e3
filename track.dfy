/** The attendance tracker: current room per user, live guest counters per room
    and the append-only track log (`Track.ts`). */
module Track {
  import opened Js
  import opened Rooms
  import opened Reservations

  datatype Operation = Enter | Exit

  /** `operationFromString`: "enter" and "exit" (lower case only); null (None)
      for every other string. */
  function OperationFromString(str: string): (r: Option<Operation>)
    ensures r == Some(Enter) <==> str == "enter"
    ensures r == Some(Exit) <==> str == "exit"
    ensures r.None? <==> str != "enter" && str != "exit"
  {
    match str
    case "enter" => Some(Enter)
    case "exit" => Some(Exit)
    case _ => None
  }

  /** The `operation` string a log entry records. */
  function OperationName(op: Operation): string
  {
    match op
    case Enter => "enter"
    case Exit => "exit"
  }

  /** The string a log entry records for an operation parses back to it. */
  lemma OperationNameRoundTrip(op: Operation)
    ensures OperationFromString(OperationName(op)) == Some(op)
  {
  }

  /** One entry of a user's `trackings` log. The server timestamp is left out. */
  datatype TrackEntry = TrackEntry(operation: string, fromRoom: string, toRoom: string, reservation: string)

  /** The room id a log entry records when there was no previous room. */
  const NoRoom: string := "undefined"

  function FromRoomId(fromRoom: Option<Room>): (id: string)
    ensures fromRoom.Some? ==> id == fromRoom.value.roomId
    ensures fromRoom.None? ==> id == NoRoom
  {
    if fromRoom.Some? then fromRoom.value.roomId else NoRoom
  }

  function RoomIdOf(room: Option<Room>): Option<string>
  {
    if room.Some? then Some(room.value.roomId) else None
  }

  /** The track document written on every eligible check-in/out: only the
      reference to the new room. */
  function CurrentRoomFields(roomCollection: string, roomId: string): Fields
  {
    map["current_room" := Ref(DocRef(roomCollection, roomId))]
  }

  /** The `current_room` field of a user's track document; undefined when there is
      no track document or the field is absent. */
  function CurrentRoomField(tracks: map<string, Fields>, uid: string): (v: Value)
    ensures uid !in tracks ==> v == Undefined
    ensures uid in tracks && "current_room" !in tracks[uid] ==> v == Undefined
    ensures uid in tracks && "current_room" in tracks[uid] ==> v == tracks[uid]["current_room"]
  {
    if uid in tracks && "current_room" in tracks[uid] then tracks[uid]["current_room"] else Undefined
  }

  /** `getCurrentRoom`, over the track documents `tracks` (by user id) and the
      documents `store` the rooms and ticket types are read from: null (None) when
      there is no track document, when its `current_room` is falsy, or when the room
      it references is missing; otherwise the referenced room, decoded under its
      document id. A truthy `current_room` that is not a reference has no `get`. */
  function CurrentRoomOf(tracks: map<string, Fields>, uid: string, store: Store): (r: Js<Option<Room>>)
    ensures !Truthy(CurrentRoomField(tracks, uid)) ==> r == Return(None)
    ensures var f := CurrentRoomField(tracks, uid);
            f.Ref? && f.ref !in store ==> r == Return(None)
    ensures var f := CurrentRoomField(tracks, uid);
            f.Ref? && f.ref in store ==> r == RoomFromObj(f.ref.id, Read(store, f.ref), store)
    ensures var f := CurrentRoomField(tracks, uid);
            r.Throw? <==> (Truthy(f) && !f.Ref?) ||
                          (f.Ref? && f.ref in store && RoomFromObj(f.ref.id, Read(store, f.ref), store).Throw?)
    ensures r.Return? && r.value.Some? ==>
              && CurrentRoomField(tracks, uid).Ref?
              && r.value.value.roomId == CurrentRoomField(tracks, uid).ref.id
  {
    var roomRef := CurrentRoomField(tracks, uid);
    if !Truthy(roomRef) then Return(None)
    else if !roomRef.Ref? then Throw
    else
      var roomData := Read(store, roomRef.ref);
      if !roomData.present then Return(None)
      else RoomFromObj(roomData.ref.id, roomData, store)
  }

  /** After the track document is overwritten, the current room is the room
      document it now references, decoded under the new room's id. */
  lemma CurrentRoomAfterUpdate(tracks: map<string, Fields>, uid: string, store: Store, roomCollection: string, roomId: string)
    ensures var ref := DocRef(roomCollection, roomId);
            CurrentRoomOf(tracks[uid := CurrentRoomFields(roomCollection, roomId)], uid, store)
            == if ref in store then RoomFromObj(roomId, Read(store, ref), store) else Return(None)
    ensures var r := CurrentRoomOf(tracks[uid := CurrentRoomFields(roomCollection, roomId)], uid, store);
            r.Return? && r.value.Some? ==> r.value.value.roomId == roomId
  {
  }

  /** A live counter as `updateGuestCount` reads it: a missing counter is 0. */
  function CountOf(counts: map<string, int>, roomId: string): int
  {
    if roomId in counts then counts[roomId] else 0
  }

  /** The counter table after a successful `updateGuestCount`. */
  function AddGuests(counts: map<string, int>, roomId: string, delta: int): (r: map<string, int>)
    ensures roomId in r && r[roomId] == CountOf(counts, roomId) + delta
    ensures forall id :: id != roomId ==> (id in r <==> id in counts) && CountOf(r, id) == CountOf(counts, id)
  {
    counts[roomId := CountOf(counts, roomId) + delta]
  }

  /** The counter updates of `updateCurrentRoom`: the previous room, if any, loses
      the group's headcount, then the target room gains it. `decReachable` and
      `incReachable` say whether the Realtime Database served each update; a failed
      update changes nothing, and a failed decrement skips the increment
      (`b && await …`). */
  function MoveGuests(counts: map<string, int>, from: Option<string>, to: string, headcount: int,
                      decReachable: bool, incReachable: bool): map<string, int>
  {
    var afterDec := if from.Some? && decReachable then AddGuests(counts, from.value, -headcount) else counts;
    var decOk := from.None? || decReachable;
    if decOk && incReachable then AddGuests(afterDec, to, headcount) else afterDec
  }

  /** The outcome `updateCurrentRoom` reports: both updates it attempted succeeded. */
  function MoveSucceeded(from: Option<string>, decReachable: bool, incReachable: bool): bool
  {
    (from.None? || decReachable) && incReachable
  }

  /** Counters of every room other than the two involved keep their values. */
  lemma MoveGuestsOtherRooms(counts: map<string, int>, from: Option<string>, to: string, headcount: int,
                             decReachable: bool, incReachable: bool, id: string)
    requires id != to && from != Some(id)
    ensures var r := MoveGuests(counts, from, to, headcount, decReachable, incReachable);
            (id in r <==> id in counts) && CountOf(r, id) == CountOf(counts, id)
  {
  }

  /** Moving within the same room leaves its counter where it was. */
  lemma MoveGuestsSameRoom(counts: map<string, int>, room: string, headcount: int)
    ensures CountOf(MoveGuests(counts, Some(room), room, headcount, true, true), room) == CountOf(counts, room)
  {
  }

  /** Moving between two rooms shifts exactly the headcount from one to the other,
      so their total is kept. */
  lemma MoveGuestsTransfers(counts: map<string, int>, from: string, to: string, headcount: int)
    requires from != to
    ensures var r := MoveGuests(counts, Some(from), to, headcount, true, true);
            && CountOf(r, from) == CountOf(counts, from) - headcount
            && CountOf(r, to) == CountOf(counts, to) + headcount
            && CountOf(r, from) + CountOf(r, to) == CountOf(counts, from) + CountOf(counts, to)
  {
  }

  /** A failed decrement leaves every counter as it was: the increment is skipped. */
  lemma MoveGuestsFailedDecrement(counts: map<string, int>, from: string, to: string, headcount: int, incReachable: bool)
    ensures MoveGuests(counts, Some(from), to, headcount, false, incReachable) == counts
  {
  }

  /** A successful decrement followed by a failed increment loses the headcount
      from the previous room without adding it anywhere. */
  lemma MoveGuestsFailedIncrement(counts: map<string, int>, from: string, to: string, headcount: int)
    ensures MoveGuests(counts, Some(from), to, headcount, true, false) == AddGuests(counts, from, -headcount)
  {
  }

  /** A first entry (no previous room) into a room without a counter sets it to the
      headcount. */
  lemma MoveGuestsFirstEntry(counts: map<string, int>, to: string, headcount: int)
    requires to !in counts
    ensures MoveGuests(counts, None, to, headcount, true, true) == counts[to := headcount]
  {
  }

  /** Checking a group of three into an empty room R, then moving it to R2, leaves
      R at 0 and R2 at 3. */
  lemma EnterThenMoveScenario(counts: map<string, int>, r: string, r2: string)
    requires r != r2 && r !in counts && r2 !in counts
    ensures var afterEnter := MoveGuests(counts, None, r, 3, true, true);
            var afterMove := MoveGuests(afterEnter, Some(r), r2, 3, true, true);
            CountOf(afterEnter, r) == 3 && CountOf(afterMove, r) == 0 && CountOf(afterMove, r2) == 3
  {
    var afterEnter := MoveGuests(counts, None, r, 3, true, true);
    MoveGuestsOtherRooms(counts, None, r, 3, true, true, r2);
    MoveGuestsTransfers(afterEnter, r, r2, 3);
  }

  /** The tracker's three tables, each written in place. */
  class Tracker {
    /** The `track` collection: one document per user id. */
    var tracks: map<string, Fields>
    /** The `trackings` sub-collection of each user's track document, oldest first. */
    var trackings: map<string, seq<TrackEntry>>
    /** The Realtime Database `guestCount` node: one counter per room id. */
    var guestCount: map<string, int>

    constructor (tracks: map<string, Fields>, trackings: map<string, seq<TrackEntry>>, guestCount: map<string, int>)
      ensures this.tracks == tracks && this.trackings == trackings && this.guestCount == guestCount
    {
      this.tracks := tracks;
      this.trackings := trackings;
      this.guestCount := guestCount;
    }

    /** A user's track log; a user never tracked has an empty log. */
    function Log(uid: string): seq<TrackEntry>
      reads this
    {
      if uid in trackings then trackings[uid] else []
    }

    /** `updateGuestCount`: read the counter (missing is 0), add `delta`, write it
      back. `reachable` says whether the Realtime Database served the read and the
      write; when it did not, nothing changes and false is returned. */
    method UpdateGuestCount(roomId: string, delta: int, reachable: bool) returns (ok: bool)
      modifies this
      ensures ok == reachable
      ensures guestCount == if reachable then AddGuests(old(guestCount), roomId, delta) else old(guestCount)
      ensures tracks == old(tracks) && trackings == old(trackings)
    {
      if !reachable {
        return false;
      }
      var count := 0;
      if roomId in guestCount {
        count := guestCount[roomId];
      }
      count := count + delta;
      guestCount := guestCount[roomId := count];
      return true;
    }

    /** `updateCurrentRoom`: overwrite the user's track document with only the new
      room's reference, then move the group's stored headcount between counters. */
    method UpdateCurrentRoom(toUpdate: Room, uid: string, reservation: Reservation, fromRoom: Option<Room>,
                             roomCollection: string, decReachable: bool, incReachable: bool)
      returns (b: bool)
      modifies this
      ensures tracks == old(tracks)[uid := CurrentRoomFields(roomCollection, toUpdate.roomId)]
      ensures guestCount == MoveGuests(old(guestCount), RoomIdOf(fromRoom), toUpdate.roomId,
                                       reservation.groupData.headcount, decReachable, incReachable)
      ensures b == MoveSucceeded(RoomIdOf(fromRoom), decReachable, incReachable)
      ensures trackings == old(trackings)
    {
      tracks := tracks[uid := CurrentRoomFields(roomCollection, toUpdate.roomId)];
      b := true;
      if fromRoom.Some? {
        var decremented := UpdateGuestCount(fromRoom.value.roomId, -reservation.groupData.headcount, decReachable);
        b := b && decremented;
      }
      if b {
        var incremented := UpdateGuestCount(toUpdate.roomId, reservation.groupData.headcount, incReachable);
        b := b && incremented;
      }
    }

    /** `recordTrackEntry`: append one entry to the user's log. */
    method RecordTrackEntry(uid: string, entry: TrackEntry)
      modifies this
      ensures trackings == old(trackings)[uid := old(Log(uid)) + [entry]]
      ensures tracks == old(tracks) && guestCount == old(guestCount)
    {
      trackings := trackings[uid := Log(uid) + [entry]];
    }

    /** `checkInOut`. The current room is looked up first. Enter and Exit are then
      handled alike: a room that does not admit the reservation's ticket type is
      refused (false, nothing written); otherwise the current room and counters are
      updated, one log entry is appended, and true is returned even when a counter
      update failed. */
    method CheckInOut(operation: Operation, uid: string, toRoom: Room, reservation: Reservation, store: Store,
                      roomCollection: string, decReachable: bool, incReachable: bool)
      returns (r: Js<bool>)
      modifies this
      ensures CurrentRoomOf(old(tracks), uid, store).Throw? ==> r == Throw && unchanged(this)
      ensures CurrentRoomOf(old(tracks), uid, store).Return? && !IsEnterable(toRoom, reservation.reservedTicketType) ==>
                r == Return(false) && unchanged(this)
      ensures CurrentRoomOf(old(tracks), uid, store).Return? && IsEnterable(toRoom, reservation.reservedTicketType) ==>
                var from := CurrentRoomOf(old(tracks), uid, store).value;
                && r == Return(true)
                && tracks == old(tracks)[uid := CurrentRoomFields(roomCollection, toRoom.roomId)]
                && guestCount == MoveGuests(old(guestCount), RoomIdOf(from), toRoom.roomId,
                                            reservation.groupData.headcount, decReachable, incReachable)
                && trackings == old(trackings)[uid := old(Log(uid)) +
                     [TrackEntry(OperationName(operation), FromRoomId(from), toRoom.roomId, reservation.reservationId)]]
    {
      var current := CurrentRoomOf(tracks, uid, store);
      if current.Throw? {
        return Throw;
      }
      var fromRoom := current.value;
      if !IsEnterable(toRoom, reservation.reservedTicketType) {
        return Return(false);
      }
      var _ := UpdateCurrentRoom(toRoom, uid, reservation, fromRoom, roomCollection, decReachable, incReachable);
      RecordTrackEntry(uid, TrackEntry(OperationName(operation), FromRoomId(fromRoom), toRoom.roomId, reservation.reservationId));
      return Return(true);
    }
  }
}
