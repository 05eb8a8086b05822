# Expert booking: a verified model of the reservation and directory core

This project models the core of a small expert-booking application. On the
server, an Express API over MongoDB:

- lists experts with search, category filter, rating order and pagination;
- returns one expert with its calendar slots;
- books a slot by atomically claiming it and recording a Pending booking;
- lists the bookings made under an e-mail address, newest first;
- changes a booking's status.

On start-up, and from a separate script, the server seeds twelve experts, each
with a grid of 56 free slots. A CORS policy decides which browser origins may
call it.

On the client, two React pages are modelled:

- the booking form, with its validation, error clearing and submit gate;
- the expert page, which groups slots by date, shows the dates in order and
  patches its slots live from the `slotUpdate` events the server broadcasts.

The store is a `Database` class (module `Store`). It has sequence fields for
the experts and the bookings, counters standing in for ObjectIds and
`createdAt`, and a ghost log of the broadcast events. Every operation that
changes the store keeps one invariant, `Store.Consistent`:

- ids are unique;
- no expert has two slots at the same (date, time);
- no two bookings hold the same slot;
- every booking is backed by a booked slot of its expert, while that expert
  exists.

Pure parts (filters, sorting, pagination, validation, the slot merge) are
functions with lemmas. Parts that loop or mutate are proved against a
specification function:

- the slot generator's nested loops;
- the seeding loop;
- `groupSlotsByDate`'s accumulator;
- the form's `validate`;
- the controllers' store updates.

The form checks are stricter than the server's. The page rejects a name or
phone that is only white space. The server tests that the name is non-empty
without trimming, and a phone of seven spaces passes its phone pattern.
`BookingPage.ClientValidPassesServer` proves that everything the page sends
for an offered slot passes the server's validation.

## Model

| member | source | states |
|---|---|---|
| BookingController.ValidateBooking | server/controllers/bookingController.js:9-20 | validation passes iff all six fields are present and both patterns match; otherwise the message of the first failing check, in the order required fields, e-mail, phone |
| BookingController.FirstFree | server/controllers/bookingController.js:26-29 | finds a slot iff some slot is free at (date, time), and it is the first such slot |
| BookingController.Claim | server/controllers/bookingController.js:24-33 | succeeds iff the expert exists and has a free slot at (date, time); on success exactly that slot becomes booked and every other slot and expert is unchanged |
| BookingController.ClaimSucceedsIff | server/controllers/bookingController.js:24-33 | with unique ids, the claim succeeds exactly when some expert with the id has a free slot at (date, time) |
| BookingController.ClaimKeepsBooked | server/controllers/bookingController.js:31 | a claim keeps every id, every slot's position and every booked flag: a slot never becomes free again |
| BookingController.ClaimExclusive | server/controllers/bookingController.js:23-40 | once a claim on (id, date, time) has succeeded, the same claim on the new store fails (mutual exclusion) |
| BookingController.AsWrittenFilter | server/controllers/bookingController.js:25-30 | the filter as written: the id matches, and some slot has the date, some slot the time, some slot is free, not necessarily one slot |
| BookingController.AsWrittenFilterAdmitsBookedSlot | server/controllers/bookingController.js:25-30 | the written filter matches an expert whose requested slot is already booked, while the intended claim refuses it |
| BookingController.NewBooking | server/controllers/bookingController.js:43 | the stored booking carries the request's expert, name, e-mail, phone, date, time and notes, with status Pending |
| BookingController.ReservePreservesConsistent | server/controllers/bookingController.js:22-50 | claiming a slot and appending its booking keeps the store invariant; in particular, no second booking for the slot can arise |
| BookingController.CreateBooking | server/controllers/bookingController.js:5-50 | 400 with the first validation message and no change; 409 and no change when the claim fails; otherwise the slot is booked, one Pending booking is appended, one `slotUpdate` is logged and the reply is 201 with the booking |
| BookingController.ReserveTwice | server/controllers/bookingController.js:35-40 | after a successful reservation, a second one for the same slot fails (409 when it passes validation), and at most one booking is added |
| BookingController.Populate | server/controllers/bookingController.js:66 | joins the booking's expert name, category and avatar when that expert exists, and nothing otherwise |
| BookingController.NewestFirst | server/controllers/bookingController.js:65-67 | holds exactly the bookings with the queried e-mail |
| BookingController.NewestFirstOrdered | server/controllers/bookingController.js:67 | the listing's `createdAt` values strictly decrease |
| BookingController.GetBookingsByEmail | server/controllers/bookingController.js:60-69 | 400 iff the e-mail is empty; otherwise 200 with the matching bookings newest first, each with its expert joined |
| BookingController.ParseStatus | server/controllers/bookingController.js:79-82 | accepts exactly Pending, Confirmed and Completed, giving the status of that name |
| BookingController.StatusRoundTrip | server/controllers/bookingController.js:79 | every status's name parses back to that status |
| BookingController.FindBooking | server/controllers/bookingController.js:84-89 | finds a booking iff one has the id, and the one found has it |
| BookingController.SetStatusPreservesConsistent | server/controllers/bookingController.js:84-88 | overwriting one booking's status keeps the store invariant |
| BookingController.UpdateBookingStatus | server/controllers/bookingController.js:76-91 | 400 for an invalid status (checked first) and 404 for an unknown id, both with no change; otherwise only that booking's status changes and it is returned with 200 |
| ExpertController.Summary | server/controllers/expertController.js:19 | a listed entry keeps every field of the expert and drops only the slots |
| ExpertController.Matches | server/controllers/expertController.js:7-14 | the filter object: a non-empty search must occur in the name ignoring case; a category other than absent or "All" must be equal |
| ExpertController.Filter | server/controllers/expertController.js:7-14 | keeps exactly the experts matching the search and category filter |
| ExpertController.FilterCounts | server/controllers/expertController.js:17 | each matching expert is kept as often as it is stored and the others not at all, so `total` counts the matching documents |
| ExpertController.FilterSnoc | server/controllers/expertController.js:18 | the matches keep store order: one more stored expert is appended to the matches exactly when it matches |
| ExpertController.AllIsNoCategoryFilter | server/controllers/expertController.js:12-14 | the category "All" filters exactly like an absent category |
| ExpertController.InsertByRating | server/controllers/expertController.js:22 | inserting into a rating-descending list keeps it descending and adds exactly the element |
| ExpertController.SortByRating | server/controllers/expertController.js:22 | the result is rating-descending and a permutation of the input |
| ExpertController.CeilDiv | server/controllers/expertController.js:30 | the least r with r * d >= n, i.e. `Math.ceil(n / d)` |
| ExpertController.Window | server/controllers/expertController.js:20-21 | at most `limit` elements, exactly those from position `skip` onwards |
| ExpertController.Ranked | server/controllers/expertController.js:18-22 | rating-descending and a permutation of the matches |
| ExpertController.TiesOnlyReorder | server/controllers/expertController.js:22 | any two rating-descending arrangements of the same experts agree on the rating at every rank |
| ExpertController.UniqueRatingSameRank | server/controllers/expertController.js:22 | an expert whose rating no other match shares has the same rank in every rating-descending arrangement of the matches |
| ExpertController.PageEntries | server/controllers/expertController.js:18-22 | exactly min(limit, n - skip) summaries (none when skip >= n), entry i being the summary of the ranked match at skip + i |
| ExpertController.GetExperts | server/controllers/expertController.js:4-32 | 200; total counts every match; page echoes the query; pages = ceil(total / limit); the page holds exactly min(limit, total - skip) entries, none when skip = (page - 1) * limit reaches total, entry i being the summary of the ranked match at skip + i |
| ExpertController.ListedMatch | server/controllers/expertController.js:18-19 | every listed entry is the summary of an expert that matches the query |
| ExpertController.ListedByRating | server/controllers/expertController.js:22 | a page lists its experts best rated first |
| ExpertController.PagesCoverMatches | server/controllers/expertController.js:16-30 | the match of rank k is listed on page k / limit + 1, at offset k mod limit, and that page does not exceed `pages` |
| ExpertController.GetExpertById | server/controllers/expertController.js:39-43 | 404 "Expert not found" iff no expert has the id; otherwise 200 with the stored expert, slots included |
| ExpertModel.CastSlot | server/models/Expert.js:3-7 | a slot casts iff date and time are present; `isBooked` is true only when supplied true (default false) |
| ExpertModel.CastSlots | server/models/Expert.js:3-18 | the embedded slot array casts iff every slot casts, each element being its slot's cast with the `isBooked` default applied |
| ExpertModel.CastAsInputs | server/models/Expert.js:3-7 | casting the plain `{ date, time, isBooked }` objects of valid slots gives back the same slots |
| ExpertModel.CastExpert | server/models/Expert.js:9-21 | a document casts iff name, category, experience and a rating within [1, 5] are present and every embedded slot casts; the optional fields are carried through unchanged and the slots are their casts |
| ExpertModel.InsertExperts | server/index.js:82 | `insertMany` succeeds iff every document casts, the i-th receiving id nextId + i |
| ExpertModel.FindExpert | server/controllers/expertController.js:41 | finds an expert iff one has the id; the one found is the first with it |
| ExpertModel.FindExpertUnique | server/controllers/expertController.js:41 | with unique ids, the lookup finds the only expert carrying the id |
| Server.TimesDistinct | server/index.js:54 | the eight hours are pairwise distinct |
| Server.GridShape | server/index.js:55-58 | n days give 8n slots; position p is hour p % 8 of day p / 8 + 1, unbooked (day-major, then hour order) |
| Server.GenerateSlots | server/index.js:52-61 | the nested loops build exactly the seven-day grid |
| Server.GeneratedSlotsValid | server/index.js:52-61 | for distinct non-empty dates: 56 slots, all free and valid, no two at the same (date, time) |
| Server.RepeatedDateRepeatsSlots | server/index.js:55-58 | when two day offsets yield the same date string, the grid holds two slots at the same (date, time); with GeneratedSlotsValid, the slots are unique exactly when the seven dates are distinct and non-empty |
| Server.ExpertDataWellFormed | server/index.js:63-76 | twelve entries, each with the required fields and a rating within [1, 5] |
| Server.WithFreshSlots | server/index.js:81 | each seed entry gets its own freshly generated grid |
| Server.SeedInsertSucceeds | server/index.js:81-82 | inserting the seed documents succeeds: twelve experts with the entries' fields, fresh ids and full grids |
| Server.SeedExperts | server/index.js:81-82 | the twelve inserted experts form a consistent collection, ids nextId..nextId+11, each with the full grid |
| Server.FreshExpertsKeepConsistent | server/index.js:78-84 | experts with fresh ids placed beside the existing bookings give a consistent store |
| Server.SeedDB | server/index.js:78-84 | a non-empty expert collection is left unchanged; an empty one receives the twelve seed experts; the bookings are untouched |
| Server.Compact | server/index.js:16-19 | `.filter(Boolean)` keeps exactly the set, non-empty entries |
| Server.AllowedOrigins | server/index.js:16-19 | the list holds the local client and CLIENT_URL when set, and never an empty entry |
| Server.OriginAllowed | server/index.js:22-29 | an origin is allowed iff it is absent or empty, is the local client, or equals CLIENT_URL |
| SeedScript.Seed | server/seed.js:36-43 | the expert collection becomes exactly the twelve seed experts whatever it held; the bookings are untouched |
| SeedScript.SeedResult | server/seed.js:36-43 | twelve experts, each with 56 free slots; running the script again gives the same experts up to their ids |
| BookingPage.Set | client/src/pages/Booking.jsx:49 | the edited field takes the value; every other field is unchanged |
| BookingPage.Missing | client/src/pages/Booking.jsx:8 | `!s.trim()` holds iff the string is all white space |
| BookingPage.FieldError | client/src/pages/Booking.jsx:8-12 | a blank field is missing; a non-blank e-mail or phone that fails its pattern is invalid; notes are never checked |
| BookingPage.Validate | client/src/pages/Booking.jsx:6-14 | the successive assignments build exactly the map of every field's own message |
| BookingPage.ErrorsMeaning | client/src/pages/Booking.jsx:6-14 | each field is reported iff it is invalid; the name gets "Name is required"; the e-mail gets "Email is required" when blank, else "Invalid email"; the phone gets "Phone is required" when blank, else "Invalid phone number"; notes are never reported; the map is empty iff the form is valid |
| BookingPage.ErrorsIndependent | client/src/pages/Booking.jsx:6-14 | changing one field leaves every other field's message as it was |
| BookingPage.Payload | client/src/pages/Booking.jsx:61-69 | the posted body carries the slot's date as `date` and its time as `timeSlot`, with the form's fields |
| BookingPage.ClientValidPassesServer | client/src/pages/Booking.jsx:6-14 | a form the page accepts, for a valid slot, passes the server's validation |
| BookingPage.BookingForm.constructor | client/src/pages/Booking.jsx:25-26 | the form starts empty with no messages |
| BookingPage.BookingForm.HandleChange | client/src/pages/Booking.jsx:48-51 | stores the value; a shown message of that field becomes empty; no other field or message changes |
| BookingPage.BookingForm.HandleSubmit | client/src/pages/Booking.jsx:53-69 | sends iff the form is valid, then exactly the payload; otherwise shows all the messages and sends nothing |
| ExpertDetailPage.SlotsOn | client/src/pages/ExpertDetail.jsx:9-10 | holds exactly the slots on the date, in input order |
| ExpertDetailPage.FirstDates | client/src/pages/ExpertDetail.jsx:7-13 | every date of the slots once, and no other date |
| ExpertDetailPage.GroupsSnoc | client/src/pages/ExpertDetail.jsx:9-10 | one more slot extends exactly its date's group, creating the group when the date is new |
| ExpertDetailPage.FirstDatesSnoc | client/src/pages/ExpertDetail.jsx:9 | a date gets a key exactly when it first occurs |
| ExpertDetailPage.GroupSlotsByDate | client/src/pages/ExpertDetail.jsx:7-13 | the reduce builds each date's slots in input order, keyed by the dates in order of first occurrence |
| ExpertDetailPage.InsertDate | client/src/pages/ExpertDetail.jsx:102 | insertion adds exactly the date |
| ExpertDetailPage.InsertDateSorted | client/src/pages/ExpertDetail.jsx:102 | insertion into an ascending list keeps it ascending |
| ExpertDetailPage.SortDates | client/src/pages/ExpertDetail.jsx:102 | `.sort()` returns a permutation of the keys |
| ExpertDetailPage.SortDatesSorted | client/src/pages/ExpertDetail.jsx:102 | `.sort()` returns the keys in ascending code-unit order |
| ExpertDetailPage.FlattenCovers | client/src/pages/ExpertDetail.jsx:102-109 | showing each listed date's group once shows every slot exactly once |
| ExpertDetailPage.RenderShowsEverySlotOnce | client/src/pages/ExpertDetail.jsx:102-109 | the date groups appear in ascending order, each date exactly once, and every slot is shown exactly once |
| ExpertDetailPage.MergeSlots | client/src/pages/ExpertDetail.jsx:43-45 | `prev.slots.map(...)`: slots at the update's (date, time) take its booking state |
| ExpertDetailPage.HandleSlotUpdate | client/src/pages/ExpertDetail.jsx:37-51 | another expert's update changes nothing; an unloaded expert stays unloaded; a loaded expert's slots become the merged slots and nothing else changes; the selection is cleared iff a booked update hits it |
| ExpertDetailPage.MergeTouchesOnlyThatSlot | client/src/pages/ExpertDetail.jsx:43-45 | only slots at the update's (date, time) change, and only their `isBooked` |
| ExpertDetailPage.HandleSlotUpdateIdempotent | client/src/pages/ExpertDetail.jsx:37-51 | receiving the same update twice is the same as receiving it once |
| ExpertDetailPage.UpdateMirrorsClaim | client/src/pages/ExpertDetail.jsx:37-47 | the event a successful claim broadcasts turns the loaded expert into the expert the server now stores |
| ExpertDetailPage.SelectSlot | client/src/pages/ExpertDetail.jsx:113-114 | a booked slot's button does nothing; a free slot becomes the selection |
| ExpertDetailPage.SelectKeepsSelectionFree | client/src/pages/ExpertDetail.jsx:112-114 | after a click, the selection, if any, is on a free slot |
| ExpertDetailPage.UpdateKeepsSelectionFree | client/src/pages/ExpertDetail.jsx:48-51 | no update leaves the selection on a booked slot |
| Text.TrimStart | client/src/pages/Booking.jsx:8 | the result starts with a non-space and is empty iff the string is all white space |
| Text.Trim | client/src/pages/Booking.jsx:8 | `trim()`: leading and trailing white space removed |
| Text.TrimEmptyIffBlank | client/src/pages/Booking.jsx:8 | `trim()` gives "" iff the string is all white space |
| Text.ContainsIgnoreCase | server/controllers/expertController.js:9-11 | true iff the search text occurs in the name at some position, ignoring case |
| Text.SearchIgnoresCase | server/controllers/expertController.js:10 | changing the case of the name or of the search never changes the outcome |
| Text.EmailMatches | server/controllers/bookingController.js:13 | the e-mail pattern: local@domain.tld, each part non-empty and free of white space and '@' |
| Text.PhoneMatches | server/controllers/bookingController.js:17 | the phone pattern: 7 to 15 characters, each a digit, white space, '+', '-', '(' or ')' |
| Text.EmailShape | server/controllers/bookingController.js:13 | an address the pattern accepts has exactly one '@', at least five characters and is not blank |
| Text.LexLeTotal | client/src/pages/ExpertDetail.jsx:102 | any two strings are ordered one way or the other |
| Text.LexLeAntisymmetric | client/src/pages/ExpertDetail.jsx:102 | strings ordered both ways are equal |
| Text.LexLeTransitive | client/src/pages/ExpertDetail.jsx:102 | the order is transitive |

## Left out

- The Express app, routing, JSON parsing, the socket.io server and transport, mongoose connection with its in-memory fallback, `process.exit` and `disconnect`, and the axios wrappers. Broadcast events are recorded in a ghost log of the store.
- Concurrency: `findOneAndUpdate` is one atomic step, so mutual exclusion is stated sequentially (ClaimExclusive, ReserveTwice); interleavings are not modelled.
- Date arithmetic in `generateSlots` (`new Date`, `setDate`, `toISOString`) is replaced by a `calendar` parameter mapping a day offset to its date string. Distinct dates for days 1..7 are a precondition of GeneratedSlotsValid and the seeding members, not derived; see Findings for when the source breaks it.
- `formatDate`, React rendering, hooks, the loading and server-error states, and the success screen of the booking page.
- Regular expressions are hand-written character predicates. The MongoDB `$regex` name search is modelled as a case-insensitive substring, so search text with pattern metacharacters is not modelled. Case folding covers ASCII letters only.
- Strings are sequences of characters. JavaScript compares and measures UTF-16 code units, which differs only outside the Basic Multilingual Plane.
- Ratings are integers in tenths (4.9 is 49), so the schema bounds 1 and 5 are 10 and 50. Floating point is not modelled.
- `parseInt` of page and limit: the query carries integers, and page >= 1 and limit >= 1 are required. NaN, zero and negative values are not modelled.
- ObjectIds and `createdAt` timestamps come from counters in the store. The Booking schema (server/models/Booking.js) is not part of this model, so its fields are the ones the controller writes.
- The 11000 duplicate-key reply and every 500 reply: they come from the Booking schema's index and from database failures, neither of which is in this model.
- Malformed ids: ids are `nat` in the model, so an id that is not a valid ObjectId cannot occur. The source answers one with a CastError 500 (server/controllers/bookingController.js:24 and :84, server/controllers/expertController.js:41).
- A failing `Booking.create` after a successful claim would leave a booked slot without a booking. The model treats the create as always succeeding.
- The `if (io)` check: the event is always logged.
- ExpertController.SortByRating: experts with equal ratings may come back in any order; the model fixes one stable order. GetExperts and PagesCoverMatches depend on it, see the next line.
- ExpertController.PagesCoverMatches: holds for one tie order shared by all page queries. MongoDB need not order experts of equal rating the same way in separate skip/limit queries. The seed data has ties (4.9 three times, 4.8, 4.7 and 4.6 more than once), so an expert tied at a page boundary may be listed on two pages or on none. What holds under any tie order: the rating at every rank (TiesOnlyReorder), and the rank of an expert whose rating no other match shares (UniqueRatingSameRank).
- Expert timestamps: `timestamps: true` (server/models/Expert.js:20) gives every expert `createdAt` and `updatedAt`, and the claim's `findOneAndUpdate` moves `updatedAt`. The Expert datatype has neither field, so BookingController.Claim's "every other field unchanged" is silent about `updatedAt`.
- SeedScript.Seed: the bookings of removed experts are kept, as the script keeps them. They then refer to no expert, and the invariant only asks a booking to be backed while its expert exists.
- server/seed.js repeats the `generateSlots` and `expertData` of server/index.js verbatim. SeedScript.Seed uses the Server module's copies.

## Findings

| source | as written | input that shows it | evidently intended | confidence | as-written member | corrected member |
|---|---|---|---|---|---|---|
| server/controllers/bookingController.js:25-30 | the claim filter puts three separate conditions on `slots` (date, time, not booked) without `$elemMatch`, so different slots may satisfy them, and the positional `$` at line 31 may point at another slot | expert with slots (2025-06-01, 09:00, booked) and (2025-06-01, 10:00, free), request for 2025-06-01 09:00: the filter matches and the update goes ahead, so the free 10:00 slot may be marked booked with no booking behind it; then, depending on the Booking schema (server/models/Booking.js is not part of this model), a second booking for 09:00 is created with 201 if no unique index covers the slot, or the create fails with 409 if one does | `slots: { $elemMatch: { date, time, isBooked: false } }`: claim the slot at (date, time) only while it is free | high; not executed | BookingController.AsWrittenFilterAdmitsBookedSlot | BookingController.ClaimExclusive |
| server/index.js:53-57 | `generateSlots` steps the day with the local-time `setDate` but reads the date with the UTC `toISOString`, so across a daylight-saving change two day offsets can give the same date | server in America/New_York started on 2025-03-02 at 19:30: offsets 6 and 7 are 19:30 EST on 8 March and 19:30 EDT on 9 March, both 9 March in UTC, so "2025-03-09" gets 16 slots, each (date, time) twice | seven distinct dates, e.g. by stepping with `setUTCDate` | medium; not executed | Server.RepeatedDateRepeatsSlots | Server.GeneratedSlotsValid |
