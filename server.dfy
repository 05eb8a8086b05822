/**
 * server/index.js: the slot generator, the twelve seed experts, the CORS
 * origin policy and the start-up seeding that fills an empty expert
 * collection. The dates `generateSlots` derives from today's clock are a
 * parameter here: `calendar(d)` is the "YYYY-MM-DD" string of the day d days
 * after today.
 */
module Server {
  import opened Common
  import opened ExpertModel
  import opened Store

  // ------------------------------------------------------------ slot grid

  /** The bookable hours of a day, in order; there is no 13:00 slot. */
  const TIMES: seq<string> := ["09:00", "10:00", "11:00", "12:00", "14:00", "15:00", "16:00", "17:00"]

  /** Slots are generated for the days 1..DAYS after today. */
  const DAYS: nat := 7

  /** The eight hours differ pairwise. */
  lemma TimesDistinct()
    ensures |TIMES| == 8
    ensures forall i, j :: 0 <= i < j < |TIMES| ==> TIMES[i] != TIMES[j]
  {
  }

  /** One day's free slots, in the order of TIMES. */
  function DaySlots(date: string): seq<Slot> {
    seq(|TIMES|, t requires 0 <= t < |TIMES| => Slot(date, TIMES[t], false))
  }

  /** The free slots of the days 1..n after today, day by day. */
  function Grid(calendar: nat -> string, n: nat): seq<Slot> {
    if n == 0 then [] else Grid(calendar, n - 1) + DaySlots(calendar(n))
  }

  /**
   * The grid has eight slots per day, and position p holds hour p % 8 of
   * day p / 8 + 1, unbooked: day-major, then the order of TIMES.
   */
  lemma {:induction false} GridShape(calendar: nat -> string, n: nat)
    ensures |Grid(calendar, n)| == 8 * n
    ensures forall p :: 0 <= p < |Grid(calendar, n)| ==>
      Grid(calendar, n)[p] == Slot(calendar(p / 8 + 1), TIMES[p % 8], false)
  {
    if n > 0 {
      GridShape(calendar, n - 1);
      var g := Grid(calendar, n);
      forall p | 8 * (n - 1) <= p < 8 * n
        ensures g[p] == Slot(calendar(p / 8 + 1), TIMES[p % 8], false)
      {
        assert p / 8 == n - 1 && p % 8 == p - 8 * (n - 1);
      }
    }
  }

  /** `generateSlots()`: for each day 1..7 and each hour, push a free slot. */
  method GenerateSlots(calendar: nat -> string) returns (slots: seq<Slot>)
    ensures slots == Grid(calendar, DAYS)
  {
    slots := [];
    var d := 1;
    while d <= DAYS
      invariant 1 <= d <= DAYS + 1
      invariant slots == Grid(calendar, d - 1)
    {
      var date := calendar(d);
      var t := 0;
      while t < |TIMES|
        invariant 0 <= t <= |TIMES|
        invariant slots == Grid(calendar, d - 1) + DaySlots(date)[..t]
      {
        assert DaySlots(date)[..t + 1] == DaySlots(date)[..t] + [Slot(date, TIMES[t], false)];
        slots := slots + [Slot(date, TIMES[t], false)];
        t := t + 1;
      }
      assert DaySlots(date)[..t] == DaySlots(date);
      d := d + 1;
    }
  }

  /** What GeneratedSlotsValid and the seeding members assume of the date arithmetic: seven non-empty, pairwise different dates. */
  predicate CalendarOk(calendar: nat -> string) {
    && (forall d :: 1 <= d <= DAYS ==> calendar(d) != "")
    && (forall d1, d2 :: 1 <= d1 < d2 <= DAYS ==> calendar(d1) != calendar(d2))
  }

  /** 56 slots, every one free and valid, no two at the same (date, time). */
  lemma GeneratedSlotsValid(calendar: nat -> string)
    requires CalendarOk(calendar)
    ensures var g := Grid(calendar, DAYS);
      && |g| == 56
      && (forall p :: 0 <= p < |g| ==> !g[p].isBooked && ValidSlot(g[p]))
      && UniqueSlotKeys(g)
  {
    GridShape(calendar, DAYS);
    TimesDistinct();
    var g := Grid(calendar, DAYS);
    forall p | 0 <= p < |g| ensures !g[p].isBooked && ValidSlot(g[p]) {
      assert g[p].date == calendar(p / 8 + 1);
    }
    forall p, q | 0 <= p < q < |g| ensures g[p].date != g[q].date || g[p].time != g[q].time {
      if p / 8 == q / 8 {
        assert p % 8 < q % 8;
        assert g[p].time == TIMES[p % 8] && g[q].time == TIMES[q % 8];
      } else {
        assert p / 8 < q / 8;
        assert calendar(p / 8 + 1) != calendar(q / 8 + 1);
      }
    }
  }

  /**
   * The converse: when two day offsets yield the same date string, the grid
   * holds two slots at that date and 09:00. `generateSlots` moves the day in
   * local time but reads the date in UTC, so across a daylight-saving change
   * two offsets can yield one date.
   */
  lemma RepeatedDateRepeatsSlots(calendar: nat -> string, n: nat, d1: nat, d2: nat)
    requires 1 <= d1 < d2 <= n && calendar(d1) == calendar(d2)
    ensures !UniqueSlotKeys(Grid(calendar, n))
  {
    GridShape(calendar, n);
    var g := Grid(calendar, n);
    var p, q := DayStart(d1 - 1), DayStart(d2 - 1);
    assert g[p] == Slot(calendar(d1), TIMES[0], false);
    assert g[q] == Slot(calendar(d2), TIMES[0], false);
  }

  /** The grid position of day d + 1's first hour. */
  function DayStart(d: nat): (p: nat)
    ensures p / 8 == d && p % 8 == 0
  {
    8 * d
  }

  // ------------------------------------------------------------ seed data

  /** `expertData`: the twelve experts without slots (ratings in tenths). */
  const ExpertData: seq<ExpertInput> := [
    ExpertInput(Some("Dr. Aisha Patel"), Some("Technology"), Some(12), Some(49),
      Some("Full-stack architect with 12 years in fintech and AI. Mentor to 200+ engineers."),
      Some("https://api.dicebear.com/7.x/avataaars/svg?seed=Aisha"), Some(150), []),
    ExpertInput(Some("Marcus Chen"), Some("Finance"), Some(8), Some(47),
      Some("Investment strategist specializing in startup funding and venture capital."),
      Some("https://api.dicebear.com/7.x/avataaars/svg?seed=Marcus"), Some(120), []),
    ExpertInput(Some("Sara Williams"), Some("Design"), Some(6), Some(48),
      Some("Award-winning UI/UX designer. Former design lead at Google and Airbnb."),
      Some("https://api.dicebear.com/7.x/avataaars/svg?seed=Sara"), Some(100), []),
    ExpertInput(Some("Raj Kapoor"), Some("Technology"), Some(15), Some(46),
      Some("Cloud infrastructure expert. AWS Solutions Architect specializing in scalability."),
      Some("https://api.dicebear.com/7.x/avataaars/svg?seed=Raj"), Some(160), []),
    ExpertInput(Some("Dr. Emily Rodriguez"), Some("Healthcare"), Some(18), Some(50),
      Some("Board-certified physician with expertise in telemedicine and health tech."),
      Some("https://api.dicebear.com/7.x/avataaars/svg?seed=Emily"), Some(200), []),
    ExpertInput(Some("James Okafor"), Some("Marketing"), Some(9), Some(45),
      Some("Growth hacker who scaled 3 startups to unicorn status. SEO & content strategist."),
      Some("https://api.dicebear.com/7.x/avataaars/svg?seed=James"), Some(90), []),
    ExpertInput(Some("Lisa Thompson"), Some("Finance"), Some(11), Some(48),
      Some("CFO coach and financial planning expert. Helped 50+ companies achieve profitability."),
      Some("https://api.dicebear.com/7.x/avataaars/svg?seed=Lisa"), Some(135), []),
    ExpertInput(Some("Dev Kumar"), Some("Technology"), Some(7), Some(47),
      Some("React & React Native specialist. Built apps serving 10M+ daily users."),
      Some("https://api.dicebear.com/7.x/avataaars/svg?seed=Dev"), Some(110), []),
    ExpertInput(Some("Priya Sharma"), Some("Design"), Some(5), Some(46),
      Some("Product designer with expertise in design systems and accessibility."),
      Some("https://api.dicebear.com/7.x/avataaars/svg?seed=Priya"), Some(95), []),
    ExpertInput(Some("Nick O'Brien"), Some("Marketing"), Some(14), Some(49),
      Some("Digital marketing veteran. Former CMO with expertise in brand building."),
      Some("https://api.dicebear.com/7.x/avataaars/svg?seed=Nick"), Some(145), []),
    ExpertInput(Some("Dr. Fatima Al-Said"), Some("Healthcare"), Some(20), Some(49),
      Some("Nutritionist and wellness coach. Author of 3 bestselling health books."),
      Some("https://api.dicebear.com/7.x/avataaars/svg?seed=Fatima"), Some(180), []),
    ExpertInput(Some("Alex Turner"), Some("Technology"), Some(10), Some(47),
      Some("Cybersecurity expert. CISO consultant specializing in startup security posture."),
      Some("https://api.dicebear.com/7.x/avataaars/svg?seed=Alex"), Some(170), [])
  ]

  /** Every seed entry carries the required fields and a rating within the schema bounds. */
  lemma ExpertDataWellFormed()
    ensures |ExpertData| == 12
    ensures forall i :: 0 <= i < |ExpertData| ==>
      && ExpertData[i].name.Some? && ExpertData[i].name.value != ""
      && ExpertData[i].category.Some? && ExpertData[i].category.value != ""
      && ExpertData[i].experience.Some?
      && ExpertData[i].rating.Some? && MIN_RATING <= ExpertData[i].rating.value <= MAX_RATING
  {
  }

  /** The documents `expertData.map(e => ({ ...e, slots: generateSlots() }))` builds. */
  function SeedDocs(calendar: nat -> string): seq<ExpertInput> {
    seq(|ExpertData|, i requires 0 <= i < |ExpertData| => ExpertData[i].(slots := AsInputs(Grid(calendar, DAYS))))
  }

  /** The map itself: each entry gets the result of its own `generateSlots()` call. */
  method WithFreshSlots(calendar: nat -> string) returns (docs: seq<ExpertInput>)
    ensures docs == SeedDocs(calendar)
  {
    docs := [];
    var i := 0;
    while i < |ExpertData|
      invariant 0 <= i <= |ExpertData|
      invariant docs == SeedDocs(calendar)[..i]
    {
      var slots := GenerateSlots(calendar);
      docs := docs + [ExpertData[i].(slots := AsInputs(slots))];
      i := i + 1;
    }
  }

  /**
   * The seed documents always pass validation, so `insertMany` stores twelve
   * experts with consecutive fresh ids, the seed fields and a full free grid,
   * and together they satisfy the expert-collection invariant.
   */
  lemma SeedInsertSucceeds(nextId: nat, calendar: nat -> string)
    requires CalendarOk(calendar)
    ensures InsertExperts(nextId, SeedDocs(calendar)).Some?
    ensures var es := InsertExperts(nextId, SeedDocs(calendar)).value;
      && |es| == 12
      && (forall i :: 0 <= i < 12 ==>
            && es[i].id == nextId + i
            && es[i].name == ExpertData[i].name.value
            && es[i].rating == ExpertData[i].rating.value
            && es[i].slots == Grid(calendar, DAYS))
      && ExpertsConsistent(es, nextId + 12)
  {
    ExpertDataWellFormed();
    GeneratedSlotsValid(calendar);
    CastAsInputs(Grid(calendar, DAYS));
    var docs := SeedDocs(calendar);
    forall i | 0 <= i < |docs| ensures CastExpert(nextId + i, docs[i]).Some? {
      assert docs[i].slots == AsInputs(Grid(calendar, DAYS));
    }
    var es := InsertExperts(nextId, docs).value;
    forall i | 0 <= i < |es| ensures es[i].id == nextId + i && es[i].slots == Grid(calendar, DAYS) {
      assert CastExpert(nextId + i, docs[i]) == Some(es[i]);
    }
  }

  /** The experts `insertMany` stores from the seed documents. */
  function SeedExperts(nextId: nat, calendar: nat -> string): (es: seq<Expert>)
    requires CalendarOk(calendar)
    ensures InsertExperts(nextId, SeedDocs(calendar)) == Some(es)
    ensures |es| == |ExpertData| && ExpertsConsistent(es, nextId + |ExpertData|)
    ensures forall i :: 0 <= i < |es| ==> es[i].id == nextId + i && es[i].slots == Grid(calendar, DAYS)
  {
    SeedInsertSucceeds(nextId, calendar);
    InsertExperts(nextId, SeedDocs(calendar)).value
  }

  /** Fresh experts whose ids no booking can carry keep the store invariant. */
  lemma FreshExpertsKeepConsistent(bookings: seq<Booking>, nextId: nat, clock: nat, es: seq<Expert>, n: nat)
    requires BookingsConsistent(bookings, nextId, clock) && NoDoubleBooking(bookings)
    requires ExpertsConsistent(es, nextId + n)
    requires forall i :: 0 <= i < |es| ==> es[i].id >= nextId
    ensures Consistent(es, bookings, nextId + n, clock)
  {
    forall x, k | 0 <= x < |bookings| && 0 <= k < |es| ensures es[k].id != bookings[x].expertId {
      assert bookings[x].expertId < nextId <= es[k].id;
    }
  }

  /**
   * `seedDB()`: a collection that already holds an expert is left alone;
   * an empty one receives the twelve seed experts, each with its own grid.
   */
  method SeedDB(db: Database, calendar: nat -> string)
    requires db.Valid() && CalendarOk(calendar)
    modifies db
    ensures db.Valid()
    ensures old(db.experts) != [] ==> unchanged(db)
    ensures old(db.experts) == [] ==>
      && db.experts == SeedExperts(old(db.nextId), calendar)
      && db.nextId == old(db.nextId) + |ExpertData|
      && db.bookings == old(db.bookings) && db.clock == old(db.clock) && db.events == old(db.events)
  {
    if |db.experts| > 0 {
      return;
    }
    var docs := WithFreshSlots(calendar);
    ghost var expected := SeedExperts(db.nextId, calendar);
    var inserted := InsertExperts(db.nextId, docs).value;
    FreshExpertsKeepConsistent(db.bookings, db.nextId, db.clock, inserted, |ExpertData|);
    db.experts := inserted;
    db.nextId := db.nextId + |ExpertData|;
  }

  // ----------------------------------------------------------------- CORS

  /** The development client's origin. */
  const LOCAL_CLIENT: string := "http://localhost:5173"

  /** `.filter(Boolean)` over optional strings: unset and empty entries go. */
  function Compact(xs: seq<Option<string>>): (r: seq<string>)
    ensures forall s :: s in r <==> Some(s) in xs && s != ""
  {
    if xs == [] then []
    else
      (if xs[0].Some? && xs[0].value != "" then [xs[0].value] else []) + Compact(xs[1..])
  }

  /** `allowedOrigins`: the development client and CLIENT_URL when it is set and non-empty. */
  function AllowedOrigins(clientUrl: Option<string>): (r: seq<string>)
    ensures LOCAL_CLIENT in r && "" !in r
    ensures forall o :: o in r <==> o == LOCAL_CLIENT || (clientUrl == Some(o) && o != "")
  {
    Compact([Some(LOCAL_CLIENT), clientUrl])
  }

  /**
   * The `origin` callback: a request without an Origin header (or with an
   * empty one) passes, otherwise the origin must be listed.
   */
  function OriginAllowed(origin: Option<string>, clientUrl: Option<string>): (b: bool)
    ensures b <==> (origin.None? || origin.value == "" || origin.value == LOCAL_CLIENT
      || clientUrl == origin)
  {
    origin.None? || origin.value == "" || origin.value in AllowedOrigins(clientUrl)
  }
}
