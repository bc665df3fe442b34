/** The room and reservation collections and the two handlers of
    src/routes/rooms.routes.js that change them through the window logic:
    booking (`PUT /reserved/:rid`) and room creation (`POST /admin`).

    The collections are a map from document id to room and the list of
    reservations in creation order; a handler returns the collections after
    it ran together with its answer, so that "nothing else changes" can be
    stated. Database reads and writes are the map and list operations; a
    failing write is not modelled. */
module Rooms {
  import opened Wrappers
  import opened Dates
  import opened Sequences
  import opened Rotation

  /** The `_id` of a document, as the request path carries it. */
  type RoomId = string
  type UserId = string

  /** A room document. `availableDates` is the stored field `avaliableDates`
      (strings `YYYY-MM-DD`), held as UTC day numbers, and `roomType` is the
      stored field `tipeRoom`. */
  datatype Room = Room(
    title: string,
    price: string,
    images: seq<string>,
    description: string,
    availableDates: seq<Day>,
    numberRoom: int,
    roomType: string,
    size: string,
    capacity: int)

  /** A reservation document `{userId, roomId, date}`. */
  datatype Reservation = Reservation(userId: UserId, roomId: RoomId, date: Day)

  datatype Store = Store(rooms: map<RoomId, Room>, reservations: seq<Reservation>)

  /** The request fields of room creation (everything but the window);
      `roomType` is the body field `tipeRoom`. */
  datatype RoomFields = RoomFields(
    title: string,
    price: string,
    images: seq<string>,
    description: string,
    numberRoom: int,
    roomType: string,
    size: string,
    capacity: int)

  /** Booking answers: 404, 400 "date not available", and the 500 raised when
      the driver cannot cast a malformed id. There is no "invalid id" 400:
      the booking handler never checks the id's format. */
  datatype BookError = RoomNotFound | DateUnavailable | InternalError

  /** Creation answers: 400 with the validator's messages, 400 duplicate number. */
  datatype CreateError = ValidationFailed(messages: seq<string>) | DuplicateNumber

  /** Size of the window a new room is seeded with (`limitDays = 20`). */
  const WindowDays: nat := 20

  /** `PUT /reserved/:rid` with body `{date, id}`. `isObjectId` is the
      driver's ability to cast `rid` to an ObjectId (`findById` throws
      otherwise), `userId` is `req.body.id`, `now` the clock reading. */
  function Book(db: Store, rid: RoomId, isObjectId: RoomId -> bool, userId: UserId,
                date: Day, now: Instant): (res: (Store, Result<Day, BookError>))
    ensures res.1.Failure? ==> res.0 == db
    ensures res.1 == Failure(InternalError) <==> !isObjectId(rid)
    ensures res.1 == Failure(RoomNotFound) <==> isObjectId(rid) && rid !in db.rooms
    ensures res.1 == Failure(DateUnavailable)
        <==> isObjectId(rid) && rid in db.rooms && date !in db.rooms[rid].availableDates
    ensures res.1.Success? ==> res.1.value == date && |db.rooms[rid].availableDates| > 0
  {
    if !isObjectId(rid) then (db, Failure(InternalError))
    else if rid !in db.rooms then (db, Failure(RoomNotFound))
    else
      var room := db.rooms[rid];
      if date !in room.availableDates then (db, Failure(DateUnavailable))
      else
        var updated := room.(availableDates := Rotate(room.availableDates, date, now));
        var rooms := db.rooms[rid := updated];
        (Store(rooms, db.reservations + [Reservation(userId, rid, date)]), Success(date))
  }

  /** `POST /admin`. `validationErrors` is what the field validators
      reported, `newId` the fresh `_id` the database assigns, `now` the
      clock reading that `getDates(20)` starts from. */
  function CreateRoom(db: Store, fields: RoomFields, validationErrors: seq<string>,
                      newId: RoomId, now: Instant): (res: (Store, Result<Room, CreateError>))
    requires newId !in db.rooms
    ensures res.1.Failure? ==> res.0 == db
    ensures res.1 == Failure(ValidationFailed(validationErrors)) <==> |validationErrors| > 0
    ensures res.1 == Failure(DuplicateNumber)
        <==> |validationErrors| == 0
             && exists id :: id in db.rooms && db.rooms[id].numberRoom == fields.numberRoom
    ensures res.1.Success? ==>
              && res.0.rooms == db.rooms[newId := res.1.value]
              && res.0.reservations == db.reservations
              && res.1.value.availableDates == Consecutive(DayOf(now), WindowDays)
              && RoomFields(res.1.value.title, res.1.value.price, res.1.value.images,
                            res.1.value.description, res.1.value.numberRoom,
                            res.1.value.roomType, res.1.value.size, res.1.value.capacity) == fields
  {
    if |validationErrors| > 0 then (db, Failure(ValidationFailed(validationErrors)))
    else if exists id :: id in db.rooms && db.rooms[id].numberRoom == fields.numberRoom then
      (db, Failure(DuplicateNumber))
    else
      var dates := DateRange(WindowDays, now);
      FormattedRange(WindowDays, now);
      var room := Room(fields.title, fields.price, fields.images, fields.description,
                       FormatDays(dates), fields.numberRoom, fields.roomType, fields.size,
                       fields.capacity);
      (db.(rooms := db.rooms[newId := room]), Success(room))
  }

  /** No two rooms share a `numberRoom`. */
  predicate UniqueNumbers(rooms: map<RoomId, Room>) {
    forall a, b :: a in rooms && b in rooms && a != b ==> rooms[a].numberRoom != rooms[b].numberRoom
  }

  /** Every room's window is in chronological order without repetitions. */
  predicate SortedWindows(rooms: map<RoomId, Room>) {
    forall id :: id in rooms ==> StrictlyIncreasing(rooms[id].availableDates)
  }

  predicate Valid(db: Store) {
    UniqueNumbers(db.rooms) && SortedWindows(db.rooms)
  }

  /** A booking that passes both guards succeeds. It replaces only the booked
      room's window, by the rotated one (whose shape `RotateShape` gives), and
      appends exactly one reservation, for that room, day and user. */
  lemma BookFrame(db: Store, rid: RoomId, isObjectId: RoomId -> bool, userId: UserId,
                  date: Day, now: Instant)
    requires isObjectId(rid) && rid in db.rooms && date in db.rooms[rid].availableDates
    ensures Book(db, rid, isObjectId, userId, date, now).1 == Success(date)
    ensures var db' := Book(db, rid, isObjectId, userId, date, now).0;
      && db'.rooms.Keys == db.rooms.Keys
      && (forall id :: id in db.rooms && id != rid ==> db'.rooms[id] == db.rooms[id])
      && db'.rooms[rid]
         == db.rooms[rid].(availableDates := Rotate(db.rooms[rid].availableDates, date, now))
      && db'.reservations == db.reservations + [Reservation(userId, rid, date)]
  {
    var w := db.rooms[rid].availableDates;
    var room' := db.rooms[rid].(availableDates := Rotate(w, date, now));
    assert Book(db, rid, isObjectId, userId, date, now).0
        == Store(db.rooms[rid := room'], db.reservations + [Reservation(userId, rid, date)]);
  }

  /** Booking keeps room numbers unique and windows sorted. */
  lemma BookPreservesValid(db: Store, rid: RoomId, isObjectId: RoomId -> bool, userId: UserId,
                           date: Day, now: Instant)
    requires Valid(db)
    ensures Valid(Book(db, rid, isObjectId, userId, date, now).0)
  {
    var (db', r) := Book(db, rid, isObjectId, userId, date, now);
    if r.Success? {
      RotateIncreasing(db.rooms[rid].availableDates, date, now);
      assert forall id :: id in db'.rooms ==> db'.rooms[id].numberRoom == db.rooms[id].numberRoom;
    }
  }

  /** Creation keeps room numbers unique and windows sorted. */
  lemma CreatePreservesValid(db: Store, fields: RoomFields, validationErrors: seq<string>,
                             newId: RoomId, now: Instant)
    requires newId !in db.rooms && Valid(db)
    ensures Valid(CreateRoom(db, fields, validationErrors, newId, now).0)
  {
  }

  /** In a valid store, a day that was just booked cannot be booked again:
      the availability check refuses the second request. */
  lemma BookedDayNotBookableAgain(db: Store, rid: RoomId, isObjectId: RoomId -> bool,
                                  userId: UserId, otherUser: UserId, date: Day,
                                  now: Instant, later: Instant)
    requires Valid(db)
    requires isObjectId(rid) && rid in db.rooms && date in db.rooms[rid].availableDates
    ensures var db' := Book(db, rid, isObjectId, userId, date, now).0;
      Book(db', rid, isObjectId, otherUser, date, later) == (db', Failure(DateUnavailable))
  {
    BookedDayLeavesSortedWindow(db.rooms[rid].availableDates, date, now);
  }
}
