/**
 * client/src/pages/ExpertDetail.jsx: an expert's slots grouped by date and
 * shown in ascending date order, the live `slotUpdate` handler that patches
 * the displayed slots and drops a selection that has just been booked, and
 * the rule that a booked slot's button cannot be selected.
 */
module ExpertDetailPage {
  import opened Common
  import opened Text
  import opened ExpertModel
  import opened Store
  import BookingController

  // ------------------------------------------------------ grouping by date

  /** The slots of `slots` on `date`, in their original order. */
  function SlotsOn(slots: seq<Slot>, date: string): (r: seq<Slot>)
    ensures forall x :: x in r <==> x in slots && x.date == date
  {
    if slots == [] then []
    else
      SlotsOn(slots[..|slots| - 1], date)
        + (if slots[|slots| - 1].date == date then [slots[|slots| - 1]] else [])
  }

  /** The dates that occur in `slots`. */
  function Dates(slots: seq<Slot>): set<string> {
    set x | x in slots :: x.date
  }

  /** The group each date gets: the date's slots in input order. */
  function Groups(slots: seq<Slot>): map<string, seq<Slot>> {
    map d | d in Dates(slots) :: SlotsOn(slots, d)
  }

  /** `Object.keys(grouped)`: each date once, in order of first occurrence. */
  function FirstDates(slots: seq<Slot>): (r: seq<string>)
    ensures forall d :: multiset(r)[d] == if d in Dates(slots) then 1 else 0
  {
    if slots == [] then []
    else
      var prefix := slots[..|slots| - 1];
      var last := slots[|slots| - 1];
      assert slots == prefix + [last];
      assert Dates(slots) == Dates(prefix) + {last.date};
      if last.date in FirstDates(prefix) then FirstDates(prefix) else FirstDates(prefix) + [last.date]
  }

  lemma SlotsOnSnoc(slots: seq<Slot>, x: Slot, d: string)
    ensures SlotsOn(slots + [x], d) == SlotsOn(slots, d) + (if x.date == d then [x] else [])
  {
    var s := slots + [x];
    assert s[..|s| - 1] == slots;
  }

  lemma DatesSnoc(slots: seq<Slot>, x: Slot)
    ensures Dates(slots + [x]) == Dates(slots) + {x.date}
  {
    var s := slots + [x];
    forall d | d in Dates(s) ensures d in Dates(slots) + {x.date} {
      var y :| y in s && y.date == d;
      if y != x {
        assert y in slots;
      }
    }
  }

  /** A date that does not occur has no slots. */
  lemma {:induction false} SlotsOnAbsent(slots: seq<Slot>, d: string)
    requires d !in Dates(slots)
    ensures SlotsOn(slots, d) == []
  {
    if slots != [] {
      var prefix := slots[..|slots| - 1];
      var last := slots[|slots| - 1];
      assert slots == prefix + [last];
      DatesSnoc(prefix, last);
      SlotsOnAbsent(prefix, d);
    }
  }

  /** Appending one slot extends exactly the group of its date, creating it if new. */
  lemma GroupsSnoc(slots: seq<Slot>, x: Slot)
    ensures Groups(slots + [x]) ==
      Groups(slots)[x.date := (if x.date in Groups(slots) then Groups(slots)[x.date] else []) + [x]]
  {
    var after := Groups(slots + [x]);
    var before := Groups(slots);
    var expected := before[x.date := (if x.date in before then before[x.date] else []) + [x]];
    DatesSnoc(slots, x);
    assert after.Keys == expected.Keys;
    forall d | d in after ensures after[d] == expected[d] {
      SlotsOnSnoc(slots, x, d);
      if d == x.date && d !in Dates(slots) {
        SlotsOnAbsent(slots, d);
      }
    }
  }

  /** A date is a key of the groups exactly when it is listed among the first dates. */
  lemma FirstDatesSnoc(slots: seq<Slot>, x: Slot)
    ensures x.date in FirstDates(slots) <==> x.date in Groups(slots)
    ensures FirstDates(slots + [x]) ==
      if x.date in Groups(slots) then FirstDates(slots) else FirstDates(slots) + [x.date]
  {
    var s := slots + [x];
    assert s[..|s| - 1] == slots;
    assert x.date in FirstDates(slots) <==> multiset(FirstDates(slots))[x.date] > 0;
  }

  /**
   * `groupSlotsByDate(slots)`: a reduce that creates a date's array the first
   * time the date is seen and pushes every slot onto its date's array; the
   * keys are kept in insertion order, as `Object.keys` reports them.
   */
  method GroupSlotsByDate(slots: seq<Slot>) returns (groups: map<string, seq<Slot>>, keys: seq<string>)
    ensures groups == Groups(slots)
    ensures keys == FirstDates(slots)
  {
    groups, keys := map[], [];
    var i := 0;
    while i < |slots|
      invariant 0 <= i <= |slots|
      invariant groups == Groups(slots[..i])
      invariant keys == FirstDates(slots[..i])
    {
      var slot := slots[i];
      ghost var prefix := slots[..i];
      assert slots[..i + 1] == prefix + [slot];
      GroupsSnoc(prefix, slot);
      FirstDatesSnoc(prefix, slot);
      var group := if slot.date in groups then groups[slot.date] else [];
      if slot.date !in groups {
        keys := keys + [slot.date];
      }
      groups := groups[slot.date := group + [slot]];
      i := i + 1;
    }
    assert slots[..i] == slots;
  }

  // ------------------------------------------------------ rendering order

  /** Ascending in the order of JavaScript's default `sort`. */
  predicate SortedDates(ds: seq<string>) {
    forall i, j :: 0 <= i < j < |ds| ==> LexLe(ds[i], ds[j])
  }

  function InsertDate(d: string, ds: seq<string>): (r: seq<string>)
    ensures multiset(r) == multiset(ds) + multiset{d}
  {
    if ds == [] || LexLe(d, ds[0]) then [d] + ds
    else
      assert ds == [ds[0]] + ds[1..];
      [ds[0]] + InsertDate(d, ds[1..])
  }

  lemma {:induction false} InsertDateSorted(d: string, ds: seq<string>)
    requires SortedDates(ds)
    ensures SortedDates(InsertDate(d, ds))
  {
    var r := InsertDate(d, ds);
    if ds == [] || LexLe(d, ds[0]) {
      forall j | 1 <= j < |r| ensures LexLe(r[0], r[j]) {
        if j > 1 {
          LexLeTransitive(d, ds[0], ds[j - 1]);
        }
      }
    } else {
      InsertDateSorted(d, ds[1..]);
      LexLeTotal(d, ds[0]);
      var tail := InsertDate(d, ds[1..]);
      forall j | 0 <= j < |tail| ensures LexLe(ds[0], tail[j]) {
        assert tail[j] in multiset(tail);
        if tail[j] != d {
          assert tail[j] in multiset(ds[1..]);
          var k :| 0 <= k < |ds[1..]| && ds[1..][k] == tail[j];
          assert ds[k + 1] == tail[j];
        }
      }
    }
  }

  /** `.sort()`: the same dates, ascending. */
  function SortDates(ds: seq<string>): (r: seq<string>)
    ensures multiset(r) == multiset(ds)
  {
    if ds == [] then []
    else
      assert ds == [ds[0]] + ds[1..];
      InsertDate(ds[0], SortDates(ds[1..]))
  }

  lemma {:induction false} SortDatesSorted(ds: seq<string>)
    ensures SortedDates(SortDates(ds))
  {
    if ds != [] {
      SortDatesSorted(ds[1..]);
      InsertDateSorted(ds[0], SortDates(ds[1..]));
    }
  }

  /** The slots in the order the page shows them: date group by date group. */
  function Flatten(slots: seq<Slot>, ds: seq<string>): seq<Slot> {
    if ds == [] then [] else SlotsOn(slots, ds[0]) + Flatten(slots, ds[1..])
  }

  /** A list without repeats: its tail has none either, and the head is not in the tail. */
  lemma NoRepeatsTail(ds: seq<string>)
    requires ds != [] && forall d :: multiset(ds)[d] <= 1
    ensures forall d :: multiset(ds[1..])[d] <= 1
    ensures ds[0] !in ds[1..]
  {
    assert ds == [ds[0]] + ds[1..];
    assert multiset(ds) == multiset{ds[0]} + multiset(ds[1..]);
    forall d ensures multiset(ds[1..])[d] <= 1 {
      assert multiset(ds)[d] >= multiset(ds[1..])[d];
    }
    assert multiset(ds)[ds[0]] == 1 + multiset(ds[1..])[ds[0]];
  }

  /** Each date group is listed at most once when the dates do not repeat. */
  lemma FlattenSnoc(slots: seq<Slot>, x: Slot, ds: seq<string>)
    requires forall d :: multiset(ds)[d] <= 1
    ensures multiset(Flatten(slots + [x], ds)) ==
      multiset(Flatten(slots, ds)) + (if x.date in ds then multiset{x} else multiset{})
  {
    var after := multiset(Flatten(slots + [x], ds));
    var expected := multiset(Flatten(slots, ds)) + (if x.date in ds then multiset{x} else multiset{});
    forall y ensures after[y] == expected[y] {
      FlattenSnocCount(slots, x, ds, y);
    }
    assert after == expected;
  }

  /** FlattenSnoc, one slot value at a time. */
  lemma {:induction false} FlattenSnocCount(slots: seq<Slot>, x: Slot, ds: seq<string>, y: Slot)
    requires forall d :: multiset(ds)[d] <= 1
    ensures multiset(Flatten(slots + [x], ds))[y] ==
      multiset(Flatten(slots, ds))[y] + (if x.date in ds && y == x then 1 else 0)
  {
    if ds != [] {
      var d, rest := ds[0], ds[1..];
      NoRepeatsTail(ds);
      FlattenSnocCount(slots, x, rest, y);
      SlotsOnSnoc(slots, x, d);
      var extra := if x.date == d then [x] else [];
      assert Flatten(slots + [x], ds) == (SlotsOn(slots, d) + extra) + Flatten(slots + [x], rest);
      assert Flatten(slots, ds) == SlotsOn(slots, d) + Flatten(slots, rest);
      assert x.date in ds <==> x.date == d || x.date in rest;
    }
  }

  /** Listing every date of the slots exactly once shows every slot exactly once. */
  lemma {:induction false} FlattenCovers(slots: seq<Slot>, ds: seq<string>)
    requires forall d :: multiset(ds)[d] <= 1
    requires forall x :: x in slots ==> x.date in ds
    ensures multiset(Flatten(slots, ds)) == multiset(slots)
  {
    if slots == [] {
      FlattenEmpty(ds);
    } else {
      var prefix := slots[..|slots| - 1];
      var last := slots[|slots| - 1];
      assert slots == prefix + [last];
      FlattenCovers(prefix, ds);
      FlattenSnoc(prefix, last, ds);
    }
  }

  lemma {:induction false} FlattenEmpty(ds: seq<string>)
    ensures Flatten([], ds) == []
  {
    if ds != [] {
      FlattenEmpty(ds[1..]);
    }
  }

  /** `Object.keys(grouped).sort()`. */
  function DateOrder(slots: seq<Slot>): seq<string> {
    SortDates(FirstDates(slots))
  }

  /**
   * The date groups appear in ascending order, each date of the expert's
   * slots exactly once, and every slot is shown exactly once.
   */
  lemma RenderShowsEverySlotOnce(slots: seq<Slot>)
    ensures SortedDates(DateOrder(slots))
    ensures forall d :: multiset(DateOrder(slots))[d] == if d in Dates(slots) then 1 else 0
    ensures multiset(Flatten(slots, DateOrder(slots))) == multiset(slots)
  {
    SortDatesSorted(FirstDates(slots));
    var order := DateOrder(slots);
    forall x | x in slots ensures x.date in order {
      assert x.date in Dates(slots);
      assert multiset(order)[x.date] == 1;
    }
    FlattenCovers(slots, order);
  }

  // ------------------------------------------------------- live updates

  /** A selected slot, `{ date, time }`. */
  datatype SlotKey = SlotKey(date: string, time: string)

  /** The page state the handler touches: the loaded expert and the selection. */
  datatype View = View(expert: Option<Expert>, selected: Option<SlotKey>)

  /** `prev.slots.map(...)`: slots at the update's (date, time) take its booking state. */
  function MergeSlots(slots: seq<Slot>, u: SlotUpdate): seq<Slot> {
    seq(|slots|, m requires 0 <= m < |slots| =>
      if slots[m].date == u.date && slots[m].time == u.timeSlot then slots[m].(isBooked := u.isBooked)
      else slots[m])
  }

  /**
   * `handleSlotUpdate`: an update for another expert is ignored; otherwise
   * the loaded expert's slots are merged (nothing is loaded: nothing to
   * merge), and a booked update at the selected slot clears the selection.
   */
  function HandleSlotUpdate(pageId: Id, v: View, u: SlotUpdate): (r: View)
    ensures u.expertId != pageId ==> r == v
    ensures r.expert.None? <==> v.expert.None?
    ensures r.expert.Some? ==> (r.expert.value.(slots := []) == v.expert.value.(slots := [])
      && |r.expert.value.slots| == |v.expert.value.slots|)
    ensures u.expertId == pageId && v.expert.Some? ==> r.expert.value.slots == MergeSlots(v.expert.value.slots, u)
    ensures r.selected.None? <==> (v.selected.None?
      || (u.expertId == pageId && u.isBooked && v.selected == Some(SlotKey(u.date, u.timeSlot))))
    ensures r.selected.Some? ==> r.selected == v.selected
  {
    if u.expertId != pageId then v
    else
      var expert := if v.expert.None? then None
        else Some(v.expert.value.(slots := MergeSlots(v.expert.value.slots, u)));
      var selected := if u.isBooked && v.selected == Some(SlotKey(u.date, u.timeSlot)) then None
        else v.selected;
      View(expert, selected)
  }

  /** Only slots at the update's position change, and only their booking state. */
  lemma MergeTouchesOnlyThatSlot(slots: seq<Slot>, u: SlotUpdate)
    ensures |MergeSlots(slots, u)| == |slots|
    ensures forall m :: 0 <= m < |slots| ==>
      && MergeSlots(slots, u)[m].date == slots[m].date
      && MergeSlots(slots, u)[m].time == slots[m].time
      && (slots[m].date == u.date && slots[m].time == u.timeSlot ==> MergeSlots(slots, u)[m].isBooked == u.isBooked)
      && (slots[m].date != u.date || slots[m].time != u.timeSlot ==> MergeSlots(slots, u)[m] == slots[m])
  {
  }

  /** Receiving the same update twice changes nothing the second time. */
  lemma HandleSlotUpdateIdempotent(pageId: Id, v: View, u: SlotUpdate)
    ensures HandleSlotUpdate(pageId, HandleSlotUpdate(pageId, v, u), u) == HandleSlotUpdate(pageId, v, u)
  {
    if u.expertId == pageId && v.expert.Some? {
      var once := MergeSlots(v.expert.value.slots, u);
      assert MergeSlots(once, u) == once;
    }
  }

  /**
   * The page converges with the server: after a successful claim, the event
   * `createBooking` broadcasts turns the expert as the page loaded it into
   * exactly the expert the server now stores.
   */
  lemma UpdateMirrorsClaim(experts: seq<Expert>, id: Id, date: string, time: string,
                           selected: Option<SlotKey>)
    requires UniqueIds(experts)
    requires forall k :: 0 <= k < |experts| ==> UniqueSlotKeys(experts[k].slots)
    requires BookingController.Claim(experts, id, date, time).Some?
    ensures var i := FindExpert(experts, id).value;
      var after := BookingController.Claim(experts, id, date, time).value;
      HandleSlotUpdate(id, View(Some(experts[i]), selected), SlotUpdate(id, date, time, true)).expert
        == Some(after[i])
  {
    var i := FindExpert(experts, id).value;
    var after := BookingController.Claim(experts, id, date, time).value;
    var j := BookingController.FirstFree(experts[i].slots, date, time).value;
    assert BookingController.FlippedOnly(experts, after, i, j);
    var u := SlotUpdate(id, date, time, true);
    var merged := MergeSlots(experts[i].slots, u);
    forall m | 0 <= m < |merged| ensures merged[m] == after[i].slots[m] {
      if m != j {
        DistinctPositions(experts[i].slots, m, j);
      }
    }
    assert merged == after[i].slots;
    assert after[i] == experts[i].(slots := after[i].slots);
  }

  /** The selected slot, if any, is free on the page. */
  predicate SelectionFree(v: View) {
    v.selected.Some? && v.expert.Some? ==>
      forall m :: 0 <= m < |v.expert.value.slots| ==>
        ((v.expert.value.slots[m].date == v.selected.value.date
          && v.expert.value.slots[m].time == v.selected.value.time) ==> !v.expert.value.slots[m].isBooked)
  }

  /** Clicking slot m: a booked slot's button is disabled, a free one becomes the selection. */
  function SelectSlot(v: View, m: nat): (r: View)
    requires v.expert.Some? && m < |v.expert.value.slots|
    ensures r.expert == v.expert
    ensures v.expert.value.slots[m].isBooked ==> r == v
    ensures !v.expert.value.slots[m].isBooked ==>
      r.selected == Some(SlotKey(v.expert.value.slots[m].date, v.expert.value.slots[m].time))
  {
    var s := v.expert.value.slots[m];
    if s.isBooked then v else v.(selected := Some(SlotKey(s.date, s.time)))
  }

  /** Selecting keeps the selection on a free slot when slot positions are unique. */
  lemma SelectKeepsSelectionFree(v: View, m: nat)
    requires v.expert.Some? && m < |v.expert.value.slots| && UniqueSlotKeys(v.expert.value.slots)
    requires SelectionFree(v)
    ensures SelectionFree(SelectSlot(v, m))
  {
    var slots := v.expert.value.slots;
    forall k | 0 <= k < |slots| && k != m
      ensures slots[k].date != slots[m].date || slots[k].time != slots[m].time
    {
      DistinctPositions(slots, k, m);
    }
  }

  /** No update, from any expert, can leave the selection on a booked slot. */
  lemma UpdateKeepsSelectionFree(pageId: Id, v: View, u: SlotUpdate)
    requires SelectionFree(v)
    ensures SelectionFree(HandleSlotUpdate(pageId, v, u))
  {
    if u.expertId == pageId && v.expert.Some? {
      MergeTouchesOnlyThatSlot(v.expert.value.slots, u);
    }
  }
}
