/**
 * Hotels, their rooms and the reservation a room holds: the links between them,
 * their equality, and the hourly check-in slots a hotel offers.
 */
module Bookings {
  import opened Wrappers
  import opened JavaStrings
  import opened StayDates

  /** A postal address; equal when every part is equal. The state and postcode are kept as their text. */
  datatype Address = Address(business: Option<string>, streetLine1: Option<string>, streetLine2: Option<string>,
                             state: Option<string>, suburb: Option<string>, postcode: Option<string>)

  // ---------------------------------------------------------------------------
  // Check-in slots
  // ---------------------------------------------------------------------------

  /** `LocalTime.of(hour, 0)`. */
  function AtHour(hour: int): LocalTime
    requires 0 <= hour < 24
  {
    hour * NanosPerHour
  }

  /** `time.plusHours(hours)`: the clock wraps around midnight. */
  function PlusHours(time: LocalTime, hours: int): (r: LocalTime)
    ensures time + hours * NanosPerHour < NanosPerDay && 0 <= time + hours * NanosPerHour ==> r == time + hours * NanosPerHour
  {
    (time + hours * NanosPerHour) % NanosPerDay
  }

  /** Java's `long` division, which truncates toward zero. */
  function TruncatingDiv(x: int, d: int): (q: int)
    requires d > 0
    ensures x >= 0 ==> q == x / d
    ensures x < 0 ==> q == -((-x) / d)
  {
    if x >= 0 then x / d else -((-x) / d)
  }

  /** `ChronoUnit.HOURS.between(from, to)`: whole hours from one time to the other, negative when `to` is earlier. */
  function HoursBetween(from: LocalTime, to: LocalTime): int
  {
    TruncatingDiv(to - from, NanosPerHour)
  }

  /** `Stream.iterate(start, t -> t.plusHours(1)).limit(count)`. */
  function HourlyFrom(start: LocalTime, count: nat): (r: seq<LocalTime>)
    ensures |r| == count
    ensures count > 0 ==> r[0] == start
    ensures forall i | 0 <= i < count - 1 :: r[i + 1] == PlusHours(r[i], 1)
    decreases count
  {
    if count == 0 then [] else [start] + HourlyFrom(PlusHours(start, 1), count - 1)
  }

  /**
   * `allowableCheckInTimes`: one slot per hour from the earliest check-in time, as many
   * as the whole hours to the latest plus one; `limit` throws for a negative count.
   */
  function CheckInTimes(earliest: LocalTime, latest: LocalTime): (r: Result<seq<LocalTime>>)
    ensures r.Err? <==> HoursBetween(earliest, latest) + 1 < 0
    ensures r.Err? ==> r.error == IllegalArgument
    ensures r.Ok? ==> |r.value| == HoursBetween(earliest, latest) + 1
    ensures r.Ok? && |r.value| > 0 ==> r.value[0] == earliest
  {
    var span := HoursBetween(earliest, latest) + 1;
    if span < 0 then Err(IllegalArgument) else Ok(HourlyFrom(earliest, span))
  }

  /** Slot `i` is `i` hours after the start, as long as no slot passes midnight. */
  lemma {:induction false} HourlyClosedForm(start: LocalTime, count: nat, i: nat)
    requires i < count && start + i * NanosPerHour < NanosPerDay
    ensures HourlyFrom(start, count)[i] == start + i * NanosPerHour
    decreases i
  {
    if i > 0 {
      HourlyClosedForm(PlusHours(start, 1), count - 1, i - 1);
    }
  }

  /**
   * When the latest check-in time is not before the earliest, every slot lies between
   * the two, each a whole number of hours after the earliest.
   */
  lemma CheckInTimesWithinWindow(earliest: LocalTime, latest: LocalTime)
    requires earliest <= latest
    ensures CheckInTimes(earliest, latest).Ok?
    ensures var slots := CheckInTimes(earliest, latest).value;
      forall i | 0 <= i < |slots| :: slots[i] == earliest + i * NanosPerHour && earliest <= slots[i] <= latest
  {
    var slots := CheckInTimes(earliest, latest).value;
    forall i | 0 <= i < |slots|
      ensures slots[i] == earliest + i * NanosPerHour && earliest <= slots[i] <= latest
    {
      assert i * NanosPerHour <= latest - earliest;
      HourlyClosedForm(earliest, |slots|, i);
    }
  }

  /** With the default times, 7:00 to 22:00, there are sixteen slots. */
  lemma DefaultCheckInTimes()
    ensures CheckInTimes(AtHour(7), AtHour(22)).Ok?
    ensures |CheckInTimes(AtHour(7), AtHour(22)).value| == 16
  {
    assert HoursBetween(AtHour(7), AtHour(22)) == 15;
  }

  // ---------------------------------------------------------------------------
  // Hotel, Room, Reservation
  // ---------------------------------------------------------------------------

  /** Whether the set already holds a room equal to `room` (the check `HashSet.add` makes). */
  predicate HasEqualRoom(rooms: set<Room>, room: Room)
    reads rooms, room
  {
    exists r | r in rooms :: r.Equals(room)
  }

  class Hotel {
    var id: Option<int>
    var name: string
    var address: Address
    var stars: int
    var email: string
    var rooms: set<Room>
    var earliestCheckInTime: LocalTime
    var latestCheckInTime: LocalTime
    var standardCheckOutTime: LocalTime
    var latestCheckOutTime: LocalTime
    var lateCheckoutFee: real

    /** A hotel with the default times (check in 7:00 to 22:00, check out 11:00, late check out 22:00) and fee 15.95. */
    constructor(name: string, address: Address, stars: int, email: string)
      ensures this.name == name && this.address == address && this.stars == stars && this.email == email
      ensures rooms == {} && id.None?
      ensures earliestCheckInTime == AtHour(7) && latestCheckInTime == AtHour(22)
      ensures standardCheckOutTime == AtHour(11) && latestCheckOutTime == AtHour(22)
      ensures lateCheckoutFee == 15.95
    {
      this.id := None;
      this.name := name;
      this.address := address;
      this.stars := stars;
      this.email := email;
      this.rooms := {};
      this.earliestCheckInTime := AtHour(7);
      this.latestCheckInTime := AtHour(22);
      this.standardCheckOutTime := AtHour(11);
      this.latestCheckOutTime := AtHour(22);
      this.lateCheckoutFee := 15.95;
    }

    /** A hotel with its own check-in and check-out times and late checkout fee, and no rooms. */
    constructor WithTimes(name: string, address: Address, stars: int, email: string,
                          earliestCheckInTime: LocalTime, latestCheckInTime: LocalTime,
                          standardCheckOutTime: LocalTime, latestCheckOutTime: LocalTime,
                          lateCheckoutFee: real)
      ensures this.name == name && this.address == address && this.stars == stars && this.email == email
      ensures rooms == {} && id.None?
      ensures this.earliestCheckInTime == earliestCheckInTime && this.latestCheckInTime == latestCheckInTime
      ensures this.standardCheckOutTime == standardCheckOutTime && this.latestCheckOutTime == latestCheckOutTime
      ensures this.lateCheckoutFee == lateCheckoutFee
    {
      this.id := None;
      this.name := name;
      this.address := address;
      this.stars := stars;
      this.email := email;
      this.rooms := {};
      this.earliestCheckInTime := earliestCheckInTime;
      this.latestCheckInTime := latestCheckInTime;
      this.standardCheckOutTime := standardCheckOutTime;
      this.latestCheckOutTime := latestCheckOutTime;
      this.lateCheckoutFee := lateCheckoutFee;
    }

    /**
     * `addRoom`: the room joins the set unless an equal room (same room number) is
     * already there, and the room's hotel becomes this hotel.
     */
    method AddRoom(room: Room)
      modifies this`rooms, room`hotel
      ensures rooms == if old(HasEqualRoom(rooms, room)) then old(rooms) else old(rooms) + {room}
      ensures HasEqualRoom(rooms, room)
      ensures room.hotel == this
      ensures room.roomNumber == old(room.roomNumber) && room.reservation == old(room.reservation)
      ensures address == old(address) && email == old(email)
    {
      if !HasEqualRoom(rooms, room) {
        rooms := rooms + {room};
        assert room.Equals(room);
      }
      room.SetHotel(this);
    }

    /** `allowableCheckInTimes`. */
    function AllowableCheckInTimes(): (r: Result<seq<LocalTime>>)
      reads this
      ensures r.Ok? ==> |r.value| == HoursBetween(earliestCheckInTime, latestCheckInTime) + 1
    {
      CheckInTimes(earliestCheckInTime, latestCheckInTime)
    }

    /** `equals`: the same object, or the same address and email; name, stars, rooms and times do not count. */
    predicate Equals(other: Hotel?)
      reads this, other
    {
      this == other || (other != null && address == other.address && email == other.email)
    }

    /** `hashCode`: `Objects.hash(address, email)`; the address's own hash code is a parameter. */
    function HashCode(addressHash: Address -> int): (h: int)
      reads this
      ensures IsInt32(h)
    {
      ObjectsHash([addressHash(address), StringHash(email)])
    }
  }

  /** Equal hotels hash alike. */
  lemma EqualHotelsHashAlike(a: Hotel, b: Hotel, addressHash: Address -> int)
    requires a.Equals(b)
    ensures a.HashCode(addressHash) == b.HashCode(addressHash)
  {
  }

  class Room {
    var id: Option<int>
    var hotel: Hotel?
    var roomNumber: string
    /** The room type's name. */
    var roomType: string
    var beds: int
    var costPerNight: real
    var reservation: Reservation?

    constructor(roomNumber: string, roomType: string, beds: int, costPerNight: real)
      ensures this.roomNumber == roomNumber && this.roomType == roomType
      ensures this.beds == beds && this.costPerNight == costPerNight
      ensures hotel == null && reservation == null && id.None?
    {
      this.id := None;
      this.hotel := null;
      this.roomNumber := roomNumber;
      this.roomType := roomType;
      this.beds := beds;
      this.costPerNight := costPerNight;
      this.reservation := null;
    }

    method SetHotel(value: Hotel?)
      modifies this`hotel
      ensures hotel == value
      ensures roomNumber == old(roomNumber) && reservation == old(reservation)
    {
      hotel := value;
    }

    /** Changing the number changes the room's equality and hash code. */
    method SetRoomNumber(value: string)
      modifies this`roomNumber
      ensures roomNumber == value && hotel == old(hotel) && reservation == old(reservation)
    {
      roomNumber := value;
    }

    /**
     * `setReservation`: `null` changes nothing; otherwise the room holds the
     * reservation and the reservation's room becomes this room.
     */
    method SetReservation(value: Reservation?)
      modifies this`reservation, value
      ensures value == null ==> reservation == old(reservation)
      ensures value != null ==> reservation == value && value.room == this
      ensures value != null ==> value.reservationDates == old(value.reservationDates)
      ensures roomNumber == old(roomNumber) && hotel == old(hotel)
    {
      if value != null {
        reservation := value;
        value.SetRoom(this);
      }
    }

    predicate IsReserved()
      reads this
    {
      reservation != null
    }

    /** `equals`: the same object, or the same room number. */
    predicate Equals(other: Room?)
      reads this, other
    {
      this == other || (other != null && roomNumber == other.roomNumber)
    }

    /** `hashCode`: `Objects.hash(roomNumber)`. */
    function HashCode(): (h: int)
      reads this
      ensures IsInt32(h)
    {
      ObjectsHash([StringHash(roomNumber)])
    }
  }

  /** Equal rooms hash alike, so the hotel's hash set treats them as one. */
  lemma EqualRoomsHashAlike(a: Room, b: Room)
    requires a.Equals(b)
    ensures a.HashCode() == b.HashCode()
  {
  }

  /** The part of a reservation the room link and the meal plans use. */
  class Reservation {
    /** A random id; a parameter here. */
    const reservationId: int
    var room: Room?
    var reservationDates: ReservationDates?

    constructor(reservationId: int)
      ensures this.reservationId == reservationId && room == null && reservationDates == null
    {
      this.reservationId := reservationId;
      this.room := null;
      this.reservationDates := null;
    }

    method SetRoom(value: Room?)
      modifies this`room
      ensures room == value && reservationDates == old(reservationDates)
    {
      room := value;
    }

    method SetReservationDates(value: ReservationDates?)
      modifies this`reservationDates
      ensures reservationDates == value && room == old(room)
    {
      reservationDates := value;
    }
  }
}
