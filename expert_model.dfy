/**
 * The Expert document and its embedded slots, as the schema in
 * server/models/Expert.js declares them. Ratings are held in tenths
 * (4.9 is 49), so the schema's bounds 1 and 5 become 10 and 50.
 */
module ExpertModel {
  import opened Common

  /** Document identity (MongoDB's ObjectId). */
  type Id = nat

  /** A bookable calendar position: date "YYYY-MM-DD", time "HH:MM". */
  datatype Slot = Slot(date: string, time: string, isBooked: bool)

  datatype Expert = Expert(
    id: Id,
    name: string,
    category: string,
    experience: int,
    rating: int,
    bio: Option<string>,
    avatar: Option<string>,
    hourlyRate: Option<int>,
    slots: seq<Slot>)

  const MIN_RATING: int := 10
  const MAX_RATING: int := 50

  /** A required String path rejects a missing value and the empty string. */
  predicate ValidSlot(s: Slot) {
    s.date != "" && s.time != ""
  }

  predicate ValidExpert(e: Expert) {
    && e.name != ""
    && e.category != ""
    && MIN_RATING <= e.rating <= MAX_RATING
    && forall i :: 0 <= i < |e.slots| ==> ValidSlot(e.slots[i])
  }

  /** No two slots of one expert share a (date, time) position. */
  predicate UniqueSlotKeys(slots: seq<Slot>) {
    forall i, j :: 0 <= i < j < |slots| ==>
      slots[i].date != slots[j].date || slots[i].time != slots[j].time
  }

  /** Two different slots of an expert with unique positions differ in date or time. */
  lemma DistinctPositions(slots: seq<Slot>, m: nat, j: nat)
    requires UniqueSlotKeys(slots) && m < |slots| && j < |slots| && m != j
    ensures slots[m].date != slots[j].date || slots[m].time != slots[j].time
  {
    if j < m {
      assert slots[j].date != slots[m].date || slots[j].time != slots[m].time;
    }
  }

  /** No two experts share an id. */
  predicate UniqueIds(experts: seq<Expert>) {
    forall i, j :: 0 <= i < j < |experts| ==> experts[i].id != experts[j].id
  }

  // ------------------------------------------------ documents as submitted

  /** A slot as handed to the model before defaults and validators run. */
  datatype SlotInput = SlotInput(date: string, time: string, isBooked: Option<bool>)

  /** An expert as handed to `insertMany`: a missing field is `None`. */
  datatype ExpertInput = ExpertInput(
    name: Option<string>,
    category: Option<string>,
    experience: Option<int>,
    rating: Option<int>,
    bio: Option<string>,
    avatar: Option<string>,
    hourlyRate: Option<int>,
    slots: seq<SlotInput>)

  /** Casts one slot: `isBooked` defaults to false; date and time are required. */
  function CastSlot(input: SlotInput): (r: Option<Slot>)
    ensures r.Some? <==> input.date != "" && input.time != ""
    ensures r.Some? ==> ValidSlot(r.value) && r.value.date == input.date && r.value.time == input.time
    ensures r.Some? ==> (r.value.isBooked <==> input.isBooked == Some(true))
  {
    if input.date == "" || input.time == "" then None
    else Some(Slot(input.date, input.time, if input.isBooked.Some? then input.isBooked.value else false))
  }

  /** Casts every embedded slot; one slot that fails its schema fails them all. */
  function CastSlots(inputs: seq<SlotInput>): (r: Option<seq<Slot>>)
    ensures r.Some? <==> forall i :: 0 <= i < |inputs| ==> CastSlot(inputs[i]).Some?
    ensures r.Some? ==> (|r.value| == |inputs|
      && forall i :: 0 <= i < |inputs| ==> CastSlot(inputs[i]) == Some(r.value[i]))
  {
    if inputs == [] then Some([])
    else
      match CastSlot(inputs[0])
      case None => None
      case Some(s) =>
        match CastSlots(inputs[1..])
        case None => None
        case Some(rest) => Some([s] + rest)
  }

  /** A stored slot written back as a plain `{ date, time, isBooked }` object. */
  function AsInput(s: Slot): SlotInput {
    SlotInput(s.date, s.time, Some(s.isBooked))
  }

  /** Plain objects for a sequence of slots. */
  function AsInputs(slots: seq<Slot>): seq<SlotInput> {
    seq(|slots|, i requires 0 <= i < |slots| => AsInput(slots[i]))
  }

  /** Casting the plain objects of valid slots gives the slots back. */
  lemma CastAsInputs(slots: seq<Slot>)
    requires forall i :: 0 <= i < |slots| ==> ValidSlot(slots[i])
    ensures CastSlots(AsInputs(slots)) == Some(slots)
  {
    var r := CastSlots(AsInputs(slots));
    assert r.Some? by {
      forall i | 0 <= i < |slots| ensures CastSlot(AsInputs(slots)[i]).Some? {
        assert ValidSlot(slots[i]);
      }
    }
    assert r.value == slots;
  }

  /**
   * Validates and casts an expert document: name, category, experience and a
   * rating within [1, 5] are required; bio, avatar and hourlyRate are optional;
   * every embedded slot must satisfy the slot schema.
   */
  function CastExpert(id: Id, input: ExpertInput): (r: Option<Expert>)
    ensures r.Some? <==>
      && input.name.Some? && input.name.value != ""
      && input.category.Some? && input.category.value != ""
      && input.experience.Some?
      && input.rating.Some? && MIN_RATING <= input.rating.value <= MAX_RATING
      && CastSlots(input.slots).Some?
    ensures r.Some? ==> (ValidExpert(r.value) && r.value.id == id
      && r.value.name == input.name.value && r.value.category == input.category.value
      && r.value.experience == input.experience.value && r.value.rating == input.rating.value
      && r.value.bio == input.bio && r.value.avatar == input.avatar
      && r.value.hourlyRate == input.hourlyRate && r.value.slots == CastSlots(input.slots).value)
  {
    if || input.name.None? || input.name.value == ""
       || input.category.None? || input.category.value == ""
       || input.experience.None?
       || input.rating.None? || !(MIN_RATING <= input.rating.value <= MAX_RATING)
       || CastSlots(input.slots).None?
    then None
    else
      Some(Expert(id, input.name.value, input.category.value, input.experience.value,
                  input.rating.value, input.bio, input.avatar, input.hourlyRate, CastSlots(input.slots).value))
  }

  /**
   * `Expert.insertMany(docs)`: every document is cast, the i-th receiving the
   * fresh id `nextId + i`; one invalid document rejects the whole batch.
   */
  function InsertExperts(nextId: nat, docs: seq<ExpertInput>): (r: Option<seq<Expert>>)
    ensures r.Some? <==> forall i :: 0 <= i < |docs| ==> CastExpert(nextId + i, docs[i]).Some?
    ensures r.Some? ==> (|r.value| == |docs|
      && forall i :: 0 <= i < |docs| ==> CastExpert(nextId + i, docs[i]) == Some(r.value[i]))
    decreases |docs|
  {
    if docs == [] then Some([])
    else
      match CastExpert(nextId, docs[0])
      case None => None
      case Some(e) =>
        match InsertExperts(nextId + 1, docs[1..])
        case None => None
        case Some(rest) => Some([e] + rest)
  }

  // ------------------------------------------------------------- lookup

  /** `Expert.findById(id)`: the position of the expert with that id. */
  function FindExpert(experts: seq<Expert>, id: Id): (r: Option<nat>)
    ensures r.Some? <==> exists i :: 0 <= i < |experts| && experts[i].id == id
    ensures r.Some? ==> (r.value < |experts| && experts[r.value].id == id
      && forall i :: 0 <= i < r.value ==> experts[i].id != id)
  {
    if experts == [] then None
    else if experts[0].id == id then Some(0)
    else
      match FindExpert(experts[1..], id)
      case None => None
      case Some(k) => Some(k + 1)
  }

  /** With unique ids, the expert found is the only one carrying the id. */
  lemma FindExpertUnique(experts: seq<Expert>, id: Id, i: nat)
    requires UniqueIds(experts) && i < |experts| && experts[i].id == id
    ensures FindExpert(experts, id) == Some(i)
  {
    var k := FindExpert(experts, id).value;
    assert experts[k].id == experts[i].id;
  }
}
