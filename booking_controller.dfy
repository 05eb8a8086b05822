/**
 * server/controllers/bookingController.js: creating a booking by claiming a
 * free slot, listing the bookings made under an e-mail address, and changing
 * a booking's status.
 *
 * A request field that JavaScript treats as falsy (absent, or the empty
 * string) is the empty string here; an absent expert id is `None`.
 */
module BookingController {
  import opened Common
  import opened Text
  import opened ExpertModel
  import opened Store

  const ALL_FIELDS_REQUIRED: string := "All fields are required."
  const INVALID_EMAIL: string := "Invalid email address."
  const INVALID_PHONE: string := "Invalid phone number."
  const SLOT_UNAVAILABLE: string := "This slot is already booked or does not exist. Please choose another."
  const EMAIL_REQUIRED: string := "Email is required."
  const INVALID_STATUS: string := "Invalid status value."
  const BOOKING_NOT_FOUND: string := "Booking not found."

  /** The JSON body of `POST /api/bookings`. */
  datatype BookingRequest = BookingRequest(
    expertId: Option<Id>,
    name: string,
    email: string,
    phone: string,
    date: string,
    timeSlot: string,
    notes: Option<string>)

  predicate HasRequiredFields(req: BookingRequest) {
    && req.expertId.Some?
    && req.name != "" && req.email != "" && req.phone != ""
    && req.date != "" && req.timeSlot != ""
  }

  /**
   * The three checks in their fixed order: required fields, then the e-mail
   * pattern, then the phone pattern; the first that fails decides the message.
   */
  function ValidateBooking(req: BookingRequest): (r: Option<string>)
    ensures r.None? <==> HasRequiredFields(req) && EmailMatches(req.email) && PhoneMatches(req.phone)
    ensures !HasRequiredFields(req) ==> r == Some(ALL_FIELDS_REQUIRED)
    ensures HasRequiredFields(req) && !EmailMatches(req.email) ==> r == Some(INVALID_EMAIL)
    ensures HasRequiredFields(req) && EmailMatches(req.email) && !PhoneMatches(req.phone) ==>
      r == Some(INVALID_PHONE)
  {
    if !HasRequiredFields(req) then Some(ALL_FIELDS_REQUIRED)
    else if !EmailMatches(req.email) then Some(INVALID_EMAIL)
    else if !PhoneMatches(req.phone) then Some(INVALID_PHONE)
    else None
  }

  // ------------------------------------------------------------ the claim

  /** The slot sits at (date, time) and is still free. */
  predicate FreeAt(s: Slot, date: string, time: string) {
    s.date == date && s.time == time && !s.isBooked
  }

  /** The first free slot at (date, time). */
  function FirstFree(slots: seq<Slot>, date: string, time: string): (r: Option<nat>)
    ensures r.Some? <==> exists j :: 0 <= j < |slots| && FreeAt(slots[j], date, time)
    ensures r.Some? ==> (r.value < |slots| && FreeAt(slots[r.value], date, time)
      && forall j :: 0 <= j < r.value ==> !FreeAt(slots[j], date, time))
  {
    if slots == [] then None
    else if FreeAt(slots[0], date, time) then Some(0)
    else
      match FirstFree(slots[1..], date, time)
      case None => None
      case Some(k) => Some(k + 1)
  }

  /** `after` is `before` with slot `j` of expert `i` booked, and nothing else changed. */
  predicate FlippedOnly(before: seq<Expert>, after: seq<Expert>, i: nat, j: nat) {
    && |after| == |before| && i < |before| && j < |before[i].slots|
    && (forall k :: 0 <= k < |before| && k != i ==> after[k] == before[k])
    && after[i].(slots := []) == before[i].(slots := [])
    && |after[i].slots| == |before[i].slots|
    && (forall m :: 0 <= m < |before[i].slots| && m != j ==> after[i].slots[m] == before[i].slots[m])
    && after[i].slots[j] == before[i].slots[j].(isBooked := true)
  }

  /**
   * The conditional claim `findOneAndUpdate({_id, slot at (date, time) not
   * booked}, {$set: {'slots.$.isBooked': true}})`, with the slot conditions
   * read as one condition on a single slot: it succeeds when the expert
   * exists and has a free slot at (date, time), and books exactly that slot.
   */
  function Claim(experts: seq<Expert>, id: Id, date: string, time: string): (r: Option<seq<Expert>>)
    ensures r.Some? <==> (FindExpert(experts, id).Some?
      && FirstFree(experts[FindExpert(experts, id).value].slots, date, time).Some?)
    ensures r.Some? ==> FlippedOnly(experts, r.value, FindExpert(experts, id).value,
      FirstFree(experts[FindExpert(experts, id).value].slots, date, time).value)
  {
    match FindExpert(experts, id)
    case None => None
    case Some(i) =>
      match FirstFree(experts[i].slots, date, time)
      case None => None
      case Some(j) =>
        var e := experts[i];
        Some(experts[i := e.(slots := e.slots[j := e.slots[j].(isBooked := true)])])
  }

  /** With unique ids the claim succeeds exactly when the document filter has a match. */
  lemma ClaimSucceedsIff(experts: seq<Expert>, id: Id, date: string, time: string)
    requires UniqueIds(experts)
    ensures Claim(experts, id, date, time).Some? <==>
      exists i, j :: (0 <= i < |experts| && experts[i].id == id
        && 0 <= j < |experts[i].slots| && FreeAt(experts[i].slots[j], date, time))
  {
    if i, j :| (0 <= i < |experts| && experts[i].id == id
        && 0 <= j < |experts[i].slots| && FreeAt(experts[i].slots[j], date, time)) {
      FindExpertUnique(experts, id, i);
    }
  }

  /** A claimed slot never becomes free again, and no slot moves. */
  lemma ClaimKeepsBooked(experts: seq<Expert>, id: Id, date: string, time: string)
    requires Claim(experts, id, date, time).Some?
    ensures var after := Claim(experts, id, date, time).value;
      |after| == |experts| && forall k :: 0 <= k < |experts| ==>
        && after[k].id == experts[k].id
        && |after[k].slots| == |experts[k].slots|
        && forall m :: 0 <= m < |experts[k].slots| ==>
             && after[k].slots[m].date == experts[k].slots[m].date
             && after[k].slots[m].time == experts[k].slots[m].time
             && (experts[k].slots[m].isBooked ==> after[k].slots[m].isBooked)
  {
    var after := Claim(experts, id, date, time).value;
    var i := FindExpert(experts, id).value;
    var j := FirstFree(experts[i].slots, date, time).value;
    assert FlippedOnly(experts, after, i, j);
    forall k | 0 <= k < |experts|
      ensures after[k].id == experts[k].id && |after[k].slots| == |experts[k].slots|
    {
      if k == i {
        assert after[i].(slots := []).id == experts[i].(slots := []).id;
      }
    }
  }

  /**
   * Mutual exclusion: once a claim on (id, date, time) has succeeded, the same
   * claim on the resulting store fails, provided the expert's slot positions
   * are unique.
   */
  lemma ClaimExclusive(experts: seq<Expert>, id: Id, date: string, time: string)
    requires UniqueIds(experts)
    requires forall k :: 0 <= k < |experts| ==> UniqueSlotKeys(experts[k].slots)
    requires Claim(experts, id, date, time).Some?
    ensures Claim(Claim(experts, id, date, time).value, id, date, time).None?
  {
    var after := Claim(experts, id, date, time).value;
    var i := FindExpert(experts, id).value;
    var j := FirstFree(experts[i].slots, date, time).value;
    assert FlippedOnly(experts, after, i, j);
    ClaimKeepsBooked(experts, id, date, time);
    assert after[i].id == id;
    FindExpertUnique(after, id, i) by {
      forall a, b | 0 <= a < b < |after| ensures after[a].id != after[b].id {
        assert after[a].id == experts[a].id && after[b].id == experts[b].id;
      }
    }
    forall m | 0 <= m < |after[i].slots| ensures !FreeAt(after[i].slots[m], date, time) {
      if m != j {
        assert after[i].slots[m] == experts[i].slots[m];
        DistinctPositions(experts[i].slots, m, j);
      }
    }
  }

  /**
   * The claim filter as bookingController.js:25-30 writes it: three separate
   * conditions on `slots`, without `$elemMatch`, each of which any slot of the
   * expert may satisfy on its own.
   */
  predicate AsWrittenFilter(e: Expert, id: Id, date: string, time: string) {
    && e.id == id
    && (exists j :: 0 <= j < |e.slots| && e.slots[j].date == date)
    && (exists j :: 0 <= j < |e.slots| && e.slots[j].time == time)
    && (exists j :: 0 <= j < |e.slots| && !e.slots[j].isBooked)
  }

  /**
   * The written filter matches an expert whose 09:00 slot is already booked
   * as soon as another slot of the same day is free, so the update goes
   * ahead where the intended claim refuses it. What follows depends on the
   * Booking schema, which is not part of this model: a second booking for
   * 09:00 with 201 when no unique index covers the slot, 409 when one does;
   * either way the positional update may have marked the free slot booked.
   */
  lemma AsWrittenFilterAdmitsBookedSlot()
    ensures var e := Expert(1, "Marcus Chen", "Finance", 8, 47, None, None, None,
                            [Slot("2025-06-01", "09:00", true), Slot("2025-06-01", "10:00", false)]);
      && AsWrittenFilter(e, 1, "2025-06-01", "09:00")
      && Claim([e], 1, "2025-06-01", "09:00").None?
  {
    var e := Expert(1, "Marcus Chen", "Finance", 8, 47, None, None, None,
                    [Slot("2025-06-01", "09:00", true), Slot("2025-06-01", "10:00", false)]);
    assert e.slots[0].date == "2025-06-01" && e.slots[0].time == "09:00" && !e.slots[1].isBooked;
    assert !FreeAt(e.slots[1], "2025-06-01", "09:00");
  }

  // ------------------------------------------------------ creating a booking

  /** The record `Booking.create` stores for a request whose claim succeeded. */
  function NewBooking(id: Id, req: BookingRequest, createdAt: nat): (b: Booking)
    requires req.expertId.Some?
    ensures b.expertId == req.expertId.value && b.status == Pending
    ensures b.name == req.name && b.email == req.email && b.phone == req.phone
    ensures b.date == req.date && b.timeSlot == req.timeSlot && b.notes == req.notes
  {
    Booking(id, req.expertId.value, req.name, req.email, req.phone, req.date, req.timeSlot,
            req.notes, Pending, createdAt)
  }

  /**
   * A successful reservation keeps the store invariant: in particular no
   * second booking for the same slot can arise, because a slot a booking
   * holds is booked and the claim only takes a free one.
   */
  lemma ReservePreservesConsistent(experts: seq<Expert>, bookings: seq<Booking>, nextId: nat, clock: nat,
                                   req: BookingRequest)
    requires Consistent(experts, bookings, nextId, clock)
    requires req.expertId.Some? && Claim(experts, req.expertId.value, req.date, req.timeSlot).Some?
    ensures Consistent(Claim(experts, req.expertId.value, req.date, req.timeSlot).value,
                       bookings + [NewBooking(nextId, req, clock)], nextId + 1, clock + 1)
  {
    var id, d, t := req.expertId.value, req.date, req.timeSlot;
    var after := Claim(experts, id, d, t).value;
    var i := FindExpert(experts, id).value;
    var j := FirstFree(experts[i].slots, d, t).value;
    var b := NewBooking(nextId, req, clock);
    var bs := bookings + [b];
    assert FlippedOnly(experts, after, i, j);
    ClaimKeepsBooked(experts, id, d, t);

    // The experts stay consistent: ids and slot positions are unchanged.
    forall k | 0 <= k < |after|
      ensures after[k].id < nextId + 1 && ValidExpert(after[k]) && UniqueSlotKeys(after[k].slots)
    {
      assert ValidExpert(experts[k]) && UniqueSlotKeys(experts[k].slots);
      forall m | 0 <= m < |after[k].slots| ensures ValidSlot(after[k].slots[m]) {
        assert ValidSlot(experts[k].slots[m]);
      }
      if k == i {
        assert after[i].(slots := []).name == experts[i].(slots := []).name;
        assert after[i].(slots := []).category == experts[i].(slots := []).category;
        assert after[i].(slots := []).rating == experts[i].(slots := []).rating;
      }
    }
    assert ExpertsConsistent(after, nextId + 1);

    // No booking held (id, d, t) before, since that slot was free.
    forall x | 0 <= x < |bookings| ensures !SameSlot(bookings[x], b) {
      if bookings[x].expertId == id {
        assert BookedAt(experts[i].slots, bookings[x].date, bookings[x].timeSlot);
        var m :| 0 <= m < |experts[i].slots| && experts[i].slots[m].date == bookings[x].date
          && experts[i].slots[m].time == bookings[x].timeSlot && experts[i].slots[m].isBooked;
        assert !experts[i].slots[j].isBooked;
        DistinctPositions(experts[i].slots, m, j);
      }
    }
    assert NoDoubleBooking(bs);

    // Every booking stays backed by a booked slot.
    forall x, k | 0 <= x < |bs| && 0 <= k < |after| && after[k].id == bs[x].expertId
      ensures BookedAt(after[k].slots, bs[x].date, bs[x].timeSlot)
    {
      if x == |bookings| {
        FindExpertUnique(experts, id, k);
        assert after[i].slots[j].date == d && after[i].slots[j].time == t && after[i].slots[j].isBooked;
      } else {
        assert bs[x] == bookings[x] && experts[k].id == bookings[x].expertId;
        assert BookedAt(experts[k].slots, bookings[x].date, bookings[x].timeSlot);
        var m :| 0 <= m < |experts[k].slots| && experts[k].slots[m].date == bookings[x].date
          && experts[k].slots[m].time == bookings[x].timeSlot && experts[k].slots[m].isBooked;
        assert after[k].slots[m].isBooked;
      }
    }
    assert BookingsBacked(after, bs);
  }

  /**
   * `POST /api/bookings`: 400 on the first failed check, 409 when the claim
   * fails, otherwise the slot is booked, one Pending booking is appended, one
   * `slotUpdate` is broadcast and the reply is 201 with the booking.
   */
  method CreateBooking(db: Database, req: BookingRequest) returns (reply: Reply<Booking>)
    requires db.Valid()
    modifies db
    ensures db.Valid()
    ensures ValidateBooking(req).Some? ==>
      reply == Failure(BAD_REQUEST, ValidateBooking(req).value) && unchanged(db)
    ensures (ValidateBooking(req).None? &&
      Claim(old(db.experts), req.expertId.value, req.date, req.timeSlot).None?) ==>
      reply == Failure(CONFLICT, SLOT_UNAVAILABLE) && unchanged(db)
    ensures (ValidateBooking(req).None? &&
      Claim(old(db.experts), req.expertId.value, req.date, req.timeSlot).Some?) ==>
      && reply == Success(CREATED, NewBooking(old(db.nextId), req, old(db.clock)))
      && db.experts == Claim(old(db.experts), req.expertId.value, req.date, req.timeSlot).value
      && db.bookings == old(db.bookings) + [reply.data]
      && db.events == old(db.events) + [SlotUpdate(req.expertId.value, req.date, req.timeSlot, true)]
      && db.nextId == old(db.nextId) + 1 && db.clock == old(db.clock) + 1
  {
    var invalid := ValidateBooking(req);
    if invalid.Some? {
      return Failure(BAD_REQUEST, invalid.value);
    }
    var claimed := Claim(db.experts, req.expertId.value, req.date, req.timeSlot);
    if claimed.None? {
      return Failure(CONFLICT, SLOT_UNAVAILABLE);
    }
    ReservePreservesConsistent(db.experts, db.bookings, db.nextId, db.clock, req);
    var booking := NewBooking(db.nextId, req, db.clock);
    db.experts := claimed.value;
    db.bookings := db.bookings + [booking];
    db.nextId := db.nextId + 1;
    db.clock := db.clock + 1;
    db.events := db.events + [SlotUpdate(req.expertId.value, req.date, req.timeSlot, true)];
    reply := Success(CREATED, booking);
  }

  /**
   * Two reservations of the same slot in a row: if the first is created, the
   * second is refused, and at most one booking for the slot is added.
   */
  method ReserveTwice(db: Database, first: BookingRequest, second: BookingRequest)
    returns (r1: Reply<Booking>, r2: Reply<Booking>)
    requires db.Valid()
    requires first.expertId == second.expertId && first.date == second.date
    requires first.timeSlot == second.timeSlot
    modifies db
    ensures db.Valid()
    ensures r1.Success? ==> r2.Failure?
    ensures r1.Success? && ValidateBooking(second).None? ==> r2 == Failure(CONFLICT, SLOT_UNAVAILABLE)
    ensures |db.bookings| <= |old(db.bookings)| + 1
  {
    r1 := CreateBooking(db, first);
    if r1.Success? {
      ClaimExclusive(old(db.experts), first.expertId.value, first.date, first.timeSlot);
    }
    r2 := CreateBooking(db, second);
  }

  // --------------------------------------------------- bookings by e-mail

  /** The expert fields `populate('expertId', 'name category avatar')` joins in. */
  datatype ExpertRef = ExpertRef(id: Id, name: string, category: string, avatar: Option<string>)

  /** A listed booking with its expert joined in; `None` when the expert is gone. */
  datatype BookingView = BookingView(booking: Booking, expert: Option<ExpertRef>)

  function Populate(experts: seq<Expert>, b: Booking): (v: BookingView)
    ensures v.booking == b
    ensures v.expert.Some? <==> exists k :: 0 <= k < |experts| && experts[k].id == b.expertId
    ensures v.expert.Some? ==> exists k :: (0 <= k < |experts| && experts[k].id == b.expertId
      && v.expert.value == ExpertRef(experts[k].id, experts[k].name, experts[k].category, experts[k].avatar))
  {
    match FindExpert(experts, b.expertId)
    case None => BookingView(b, None)
    case Some(k) =>
      BookingView(b, Some(ExpertRef(experts[k].id, experts[k].name, experts[k].category, experts[k].avatar)))
  }

  /** `Booking.find({ email }).sort({ createdAt: -1 })` over bookings kept in creation order. */
  function NewestFirst(bookings: seq<Booking>, email: string): (r: seq<Booking>)
    ensures forall x :: x in r <==> x in bookings && x.email == email
    ensures |r| <= |bookings|
  {
    if bookings == [] then []
    else
      var last := bookings[|bookings| - 1];
      (if last.email == email then [last] else []) + NewestFirst(bookings[..|bookings| - 1], email)
  }

  /** Timestamps strictly decrease along the sequence. */
  predicate NewestFirstOrder(bs: seq<Booking>) {
    forall i, j :: 0 <= i < j < |bs| ==> bs[i].createdAt > bs[j].createdAt
  }

  /** Every listed booking is older than any bound all stored bookings are below. */
  lemma {:induction false} NewestFirstBelow(bookings: seq<Booking>, email: string, bound: nat)
    requires forall i :: 0 <= i < |bookings| ==> bookings[i].createdAt < bound
    ensures forall x :: x in NewestFirst(bookings, email) ==> x.createdAt < bound
  {
    if bookings != [] {
      NewestFirstBelow(bookings[..|bookings| - 1], email, bound);
    }
  }

  /** Putting a booking newer than all others in front keeps the order. */
  lemma PrependNewer(b: Booking, rest: seq<Booking>)
    requires NewestFirstOrder(rest)
    requires forall x :: x in rest ==> x.createdAt < b.createdAt
    ensures NewestFirstOrder([b] + rest)
  {
    var r := [b] + rest;
    forall i, j | 0 <= i < j < |r| ensures r[i].createdAt > r[j].createdAt {
      assert r[j] == rest[j - 1] && rest[j - 1] in rest;
      if i > 0 {
        assert r[i] == rest[i - 1];
      }
    }
  }

  /** The listing is newest first: timestamps strictly decrease along it. */
  lemma {:induction false} NewestFirstOrdered(bookings: seq<Booking>, email: string)
    requires Chronological(bookings)
    ensures NewestFirstOrder(NewestFirst(bookings, email))
  {
    if bookings != [] {
      var n := |bookings| - 1;
      var last, init := bookings[n], bookings[..n];
      NewestFirstOrdered(init, email);
      if last.email == email {
        NewestFirstBelow(init, email, last.createdAt);
        PrependNewer(last, NewestFirst(init, email));
      }
    }
  }

  /** `GET /api/bookings?email=`: 400 without an e-mail, else the joined listing. */
  function GetBookingsByEmail(experts: seq<Expert>, bookings: seq<Booking>, email: string)
    : (r: Reply<seq<BookingView>>)
    ensures r.Failure? <==> email == ""
    ensures r.Failure? ==> r == Failure(BAD_REQUEST, EMAIL_REQUIRED)
    ensures r.Success? ==> (r.code == OK && |r.data| == |NewestFirst(bookings, email)|
      && forall i :: 0 <= i < |r.data| ==>
           && r.data[i] == Populate(experts, NewestFirst(bookings, email)[i])
           && r.data[i].booking == NewestFirst(bookings, email)[i] && r.data[i].booking.email == email)
  {
    if email == "" then Failure(BAD_REQUEST, EMAIL_REQUIRED)
    else
      var found := NewestFirst(bookings, email);
      Success(OK, seq(|found|, i requires 0 <= i < |found| => Populate(experts, found[i])))
  }

  // ------------------------------------------------------------- status

  function StatusName(s: Status): string {
    match s
    case Pending => "Pending"
    case Confirmed => "Confirmed"
    case Completed => "Completed"
  }

  /** `validStatuses.includes(status)`, giving the status named. */
  function ParseStatus(s: string): (r: Option<Status>)
    ensures r.Some? <==> s == "Pending" || s == "Confirmed" || s == "Completed"
    ensures r.Some? ==> StatusName(r.value) == s
  {
    if s == "Pending" then Some(Pending)
    else if s == "Confirmed" then Some(Confirmed)
    else if s == "Completed" then Some(Completed)
    else None
  }

  lemma StatusRoundTrip(s: Status)
    ensures ParseStatus(StatusName(s)) == Some(s)
  {
  }

  /** `Booking.findById(id)`: the position of the booking with that id. */
  function FindBooking(bookings: seq<Booking>, id: Id): (r: Option<nat>)
    ensures r.Some? <==> exists i :: 0 <= i < |bookings| && bookings[i].id == id
    ensures r.Some? ==> (r.value < |bookings| && bookings[r.value].id == id)
  {
    if bookings == [] then None
    else if bookings[0].id == id then Some(0)
    else
      match FindBooking(bookings[1..], id)
      case None => None
      case Some(k) => Some(k + 1)
  }

  /** Overwriting one booking's status keeps the store invariant. */
  lemma SetStatusPreservesConsistent(experts: seq<Expert>, bookings: seq<Booking>, nextId: nat, clock: nat,
                                     k: nat, s: Status)
    requires Consistent(experts, bookings, nextId, clock) && k < |bookings|
    ensures Consistent(experts, bookings[k := bookings[k].(status := s)], nextId, clock)
  {
    var bs := bookings[k := bookings[k].(status := s)];
    assert forall x :: 0 <= x < |bs| ==> SameSlot(bs[x], bookings[x]) && bs[x].id == bookings[x].id;
    assert NoDoubleBooking(bs) by {
      forall x, y | 0 <= x < y < |bs| ensures !SameSlot(bs[x], bs[y]) {
        assert !SameSlot(bookings[x], bookings[y]);
      }
    }
  }

  /**
   * `PATCH /api/bookings/:id/status`: 400 for a status outside Pending,
   * Confirmed, Completed (checked first), 404 for an unknown id, otherwise
   * only that booking's status changes and the updated booking is returned.
   */
  method UpdateBookingStatus(db: Database, id: Id, status: string) returns (reply: Reply<Booking>)
    requires db.Valid()
    modifies db
    ensures db.Valid()
    ensures ParseStatus(status).None? ==> reply == Failure(BAD_REQUEST, INVALID_STATUS) && unchanged(db)
    ensures ParseStatus(status).Some? && FindBooking(old(db.bookings), id).None? ==>
      reply == Failure(NOT_FOUND, BOOKING_NOT_FOUND) && unchanged(db)
    ensures ParseStatus(status).Some? && FindBooking(old(db.bookings), id).Some? ==>
      var k := FindBooking(old(db.bookings), id).value;
      && db.bookings == old(db.bookings)[k := old(db.bookings)[k].(status := ParseStatus(status).value)]
      && reply == Success(OK, db.bookings[k])
      && db.experts == old(db.experts) && db.events == old(db.events)
      && db.nextId == old(db.nextId) && db.clock == old(db.clock)
  {
    var parsed := ParseStatus(status);
    if parsed.None? {
      return Failure(BAD_REQUEST, INVALID_STATUS);
    }
    var found := FindBooking(db.bookings, id);
    if found.None? {
      return Failure(NOT_FOUND, BOOKING_NOT_FOUND);
    }
    var k := found.value;
    SetStatusPreservesConsistent(db.experts, db.bookings, db.nextId, db.clock, k, parsed.value);
    db.bookings := db.bookings[k := db.bookings[k].(status := parsed.value)];
    reply := Success(OK, db.bookings[k]);
  }
}
