/**
 * server/seed.js: the stand-alone seeding script. Its `generateSlots` and
 * `expertData` are the same as those of server/index.js and are taken from
 * the Server module; what differs is `seed`, which empties the expert
 * collection before inserting, instead of inserting only into an empty one.
 */
module SeedScript {
  import opened Common
  import opened ExpertModel
  import opened Store
  import opened Server

  /**
   * `seed()`: `Expert.deleteMany({})`, then `insertMany` of the twelve seed
   * experts with fresh grids. Bookings are not touched; bookings of the
   * removed experts no longer refer to any expert.
   */
  method Seed(db: Database, calendar: nat -> string)
    requires db.Valid() && CalendarOk(calendar)
    modifies db
    ensures db.Valid()
    ensures db.experts == SeedExperts(old(db.nextId), calendar)
    ensures db.nextId == old(db.nextId) + |ExpertData|
    ensures db.bookings == old(db.bookings) && db.clock == old(db.clock) && db.events == old(db.events)
  {
    db.experts := [];
    var docs := WithFreshSlots(calendar);
    ghost var expected := SeedExperts(db.nextId, calendar);
    var inserted := InsertExperts(db.nextId, docs).value;
    FreshExpertsKeepConsistent(db.bookings, db.nextId, db.clock, inserted, |ExpertData|);
    db.experts := inserted;
    db.nextId := db.nextId + |ExpertData|;
  }

  /**
   * Whatever the collection held before, the script leaves exactly twelve
   * experts, every one with all 56 slots free, and running it again gives
   * the same experts up to their ids.
   */
  lemma SeedResult(nextId: nat, calendar: nat -> string)
    requires CalendarOk(calendar)
    ensures |SeedExperts(nextId, calendar)| == 12
    ensures forall i :: 0 <= i < 12 ==>
      var e := SeedExperts(nextId, calendar)[i];
      |e.slots| == 56 && forall p :: 0 <= p < |e.slots| ==> !e.slots[p].isBooked
    ensures forall n :: n >= nextId ==> forall i :: 0 <= i < 12 ==>
      SeedExperts(n, calendar)[i] == SeedExperts(nextId, calendar)[i].(id := n + i)
  {
    ExpertDataWellFormed();
    GeneratedSlotsValid(calendar);
    forall n, i | n >= nextId && 0 <= i < 12
      ensures SeedExperts(n, calendar)[i] == SeedExperts(nextId, calendar)[i].(id := n + i)
    {
      SeedInsertSucceeds(n, calendar);
      SeedInsertSucceeds(nextId, calendar);
      var docs := SeedDocs(calendar);
      assert CastExpert(n + i, docs[i]) == Some(SeedExperts(n, calendar)[i]);
      assert CastExpert(nextId + i, docs[i]) == Some(SeedExperts(nextId, calendar)[i]);
    }
  }
}
