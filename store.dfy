/**
 * The database the controllers work on, reduced to what they use: the
 * expert collection, the booking collection, the id and timestamp sources
 * MongoDB supplies, and the `slotUpdate` events broadcast over socket.io.
 * A Booking document's schema lives in server/models/Booking.js, which is
 * not part of this model; its fields are the ones the controller writes.
 */
module Store {
  import opened Common
  import opened ExpertModel

  datatype Status = Pending | Confirmed | Completed

  datatype Booking = Booking(
    id: Id,
    expertId: Id,
    name: string,
    email: string,
    phone: string,
    date: string,
    timeSlot: string,
    notes: Option<string>,
    status: Status,
    createdAt: nat)

  /** The payload of `io.emit('slotUpdate', ...)`. */
  datatype SlotUpdate = SlotUpdate(expertId: Id, date: string, timeSlot: string, isBooked: bool)

  /** Some slot of `slots` sits at (date, time) and is booked. */
  predicate BookedAt(slots: seq<Slot>, date: string, time: string) {
    exists j :: 0 <= j < |slots| && slots[j].date == date && slots[j].time == time && slots[j].isBooked
  }

  /** Two bookings hold the same slot of the same expert. */
  predicate SameSlot(a: Booking, b: Booking) {
    a.expertId == b.expertId && a.date == b.date && a.timeSlot == b.timeSlot
  }

  predicate ExpertsConsistent(experts: seq<Expert>, nextId: nat) {
    && UniqueIds(experts)
    && forall i :: 0 <= i < |experts| ==>
         experts[i].id < nextId && ValidExpert(experts[i]) && UniqueSlotKeys(experts[i].slots)
  }

  /** Bookings are stored in creation order, each with a later timestamp. */
  predicate Chronological(bookings: seq<Booking>) {
    forall i, j :: 0 <= i < j < |bookings| ==> bookings[i].createdAt < bookings[j].createdAt
  }

  predicate BookingsConsistent(bookings: seq<Booking>, nextId: nat, clock: nat) {
    && (forall i :: 0 <= i < |bookings| ==>
          bookings[i].id < nextId && bookings[i].expertId < nextId && bookings[i].createdAt < clock)
    && (forall i, j :: 0 <= i < j < |bookings| ==> bookings[i].id != bookings[j].id)
    && Chronological(bookings)
  }

  /** At most one booking ever holds a given (expert, date, time). */
  predicate NoDoubleBooking(bookings: seq<Booking>) {
    forall i, j :: 0 <= i < j < |bookings| ==> !SameSlot(bookings[i], bookings[j])
  }

  /** Every booking whose expert still exists is backed by a booked slot of that expert. */
  predicate BookingsBacked(experts: seq<Expert>, bookings: seq<Booking>) {
    forall i, k :: 0 <= i < |bookings| && 0 <= k < |experts| && experts[k].id == bookings[i].expertId ==>
      BookedAt(experts[k].slots, bookings[i].date, bookings[i].timeSlot)
  }

  /** The store invariant every controller operation keeps. */
  predicate Consistent(experts: seq<Expert>, bookings: seq<Booking>, nextId: nat, clock: nat) {
    && ExpertsConsistent(experts, nextId)
    && BookingsConsistent(bookings, nextId, clock)
    && NoDoubleBooking(bookings)
    && BookingsBacked(experts, bookings)
  }

  class Database {
    var experts: seq<Expert>
    var bookings: seq<Booking>
    /** The next fresh document id. */
    var nextId: nat
    /** The next `createdAt` timestamp; strictly increasing. */
    var clock: nat
    /** Every event broadcast so far, oldest first. */
    ghost var events: seq<SlotUpdate>

    ghost predicate Valid()
      reads this
    {
      Consistent(experts, bookings, nextId, clock)
    }

    constructor ()
      ensures Valid()
      ensures experts == [] && bookings == [] && events == []
    {
      experts, bookings, nextId, clock := [], [], 0, 0;
      events := [];
    }
  }
}
