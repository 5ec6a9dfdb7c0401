# Vehicle booking: the booking rule, verified

This project models the core of a small vehicle-booking service: the
`POST /api/book` handler and the request schema it applies, plus the two
read-only catalog lookups beside it. A customer asks for one vehicle for an
inclusive range of days. The handler

1. checks the body against the schema (five independent field rules) and
   answers 400 with the issues when any rule fails;
2. looks for a stored booking on the same vehicle whose range passes the
   inclusive overlap test `stored.start <= requested.end && stored.end >= requested.start`,
   and answers 409 with "Vehicle already booked for this range" when it finds one;
3. otherwise stores exactly one new booking carrying the request's vehicle,
   dates and names, and answers 201 with it.

Files:

- `wrappers.dfy` — `Option` and `Result`.
- `validation.dfy` — module `Validation`: the body schema as per-field
  predicates (`FieldValid`, `Accepts`) and as the checks the schema runs
  (`CheckField`, `Issues`, `SafeParse`).
- `catalog.dfy` — module `Catalog`: the vehicle-category and vehicle filters.
- `bookings.dfy` — module `Bookings`: the overlap test, the lookup
  (`FindConflict`), the handler as a function (`Respond`), the table invariant
  (`NoOverlap`), answers to sequences of requests (`Run`), and the class
  `BookingTable` whose `bookings` field the method `Book` updates in place.

Modelling choices:

- Dates are integer day numbers. The front end sends date-only ISO strings.
  Parsing is a parameter: `Runtime.parseDate` maps a string to `Some(day)`,
  or to `None` where the runtime's parser gives NaN. The schema's date check
  and the handler's conversion of the dates use the same parser.
- The UUID text-format test is the parameter `Runtime.isUuid`.
- A body field is either a string or `NotString` (absent or any other JSON value).
  A body that is not a JSON object at all (an array, say) is not expressible:
  the schema would report one issue on the body itself rather than per-field
  issues, and this is listed under "## Left out".
- The store's booking id is modelled by a counter `nextId`. Every new booking
  gets an id that no stored booking has.
- The code has no check that the start precedes the end, no check that the
  vehicle exists, and no lock or retry around the lookup and the insert. The
  model has none of these either: the handler does not reject reversed
  ranges or unknown vehicles, and takes no lock; the model follows the code.
- The lookup's store query has no order. `FindConflict` answers with the
  earliest conflicting booking in the table. Only whether one exists decides
  the answer.

## Model

| member | source | states |
|---|---|---|
| Validation.SafeParse | backend/src/utils/validation.ts:3-13 | the body is accepted iff all five field rules hold (no cross-field rule); an accepted request carries the body's strings unchanged; a refusal lists at least one issue, and names a field iff that field's rule fails; the "Invalid start date" / "Invalid end date" issues appear iff that field is a string the date parser rejects |
| Validation.CheckFieldMatchesRule | backend/src/utils/validation.ts:4-12 | each field's check (string of length >= 1 for the names, UUID string for the vehicle id, parseable date string for the dates) reports an issue iff its rule fails, and the issue is on that field |
| Validation.IssuesNameFailingFields | backend/src/utils/validation.ts:3-13 | the schema's issue list contains an issue for a field iff that field's rule fails, so every failing field is reported |
| Validation.NoCrossFieldRule | backend/src/utils/validation.ts:3-13 | exchanging the start and end dates never changes whether a body is accepted |
| Validation.ReversedRangeAccepted | backend/src/utils/validation.ts:7-12 | a body whose end date is before its start date is accepted |
| Catalog.VehicleTypes | backend/src/index.ts:13-17 | the answer holds exactly the categories with the requested wheel count, is no longer than the catalog, and is the whole catalog when every category matches |
| Catalog.VehicleTypesIdempotent | backend/src/index.ts:13-17 | filtering an answer again by the same wheel count returns it unchanged |
| Catalog.VehicleTypesAppend | backend/src/index.ts:13-17 | each category is kept or dropped on its own: filtering two parts of the catalog gives the two filtered parts in sequence |
| Catalog.VehiclesInCategory | backend/src/index.ts:20-24 | the answer holds exactly the vehicles of the requested category, is no longer than the catalog, and is the whole catalog when every vehicle matches; without a `categoryId` (an undefined filter field) it is the whole catalog |
| Catalog.VehiclesInCategoryAppend | backend/src/index.ts:20-24 | each vehicle is kept or dropped on its own: filtering two parts of the catalog gives the two filtered parts in sequence |
| Bookings.OverlapSymmetric | backend/src/index.ts:40-41 | the overlap test gives the same answer with the stored and requested ranges exchanged |
| Bookings.InclusiveBoundary | backend/src/index.ts:36-42 | a stored [10,12] conflicts with a request for [12,14] on its vehicle, and does not conflict with [13,15] |
| Bookings.FindConflict | backend/src/index.ts:35-45 | the lookup finds a booking iff some stored booking has the requested vehicle, starts on or before the requested end, and ends on or after the requested start; a found booking is one of the stored ones and satisfies that test |
| Bookings.OtherVehiclesIgnored | backend/src/index.ts:35-45 | the lookup over the whole table gives the same answer as over the requested vehicle's bookings alone |
| Bookings.AppendKeepsNoOverlap | backend/src/index.ts:35-59 | appending a booking the lookup found no conflict for keeps "no two bookings on one vehicle overlap" |
| Bookings.Respond | backend/src/index.ts:27-62 | 400 iff the schema refuses the body, with a non-empty issue list that names a field iff that field's rule fails; 409 with "Vehicle already booked for this range" iff the body is accepted and some stored booking on the same vehicle overlaps the parsed range; otherwise 201 with a booking carrying the next id and the request's vehicle id, parsed dates and names |
| Bookings.CreatedKeepsNoOverlap | backend/src/index.ts:35-59 | a booking the handler creates keeps the table free of overlaps on every vehicle |
| Bookings.OtherVehiclesNeverReject | backend/src/index.ts:35-49 | the answer is the same when the bookings of all other vehicles are removed from the table |
| Bookings.RepeatIsRejected | backend/src/index.ts:33-59 | after a request is accepted with start <= end, sending it again gets 409 |
| Bookings.ReversedRepeatIsAccepted | backend/src/index.ts:33-59 | after a request is accepted with start > end, sending it again is accepted again, as the same booking with the next id |
| Bookings.Run | backend/src/index.ts:27-62 | answering requests one after another only appends to the table, at most one booking per request |
| Bookings.RunKeepsNoOverlap | backend/src/index.ts:35-59 | for every sequence of requests answered one after another, no two stored bookings on one vehicle overlap |
| Bookings.BookingTable.Book | backend/src/index.ts:27-62 | answers as `Respond` on the table before the call; on 201 the table gains exactly that booking at the end, with an id no earlier booking has, and earlier bookings are unchanged; on 400 and 409 the table is unchanged; the no-overlap and id invariant is preserved |

## Left out

- HTTP transport: the server setup, CORS, JSON body parsing and `app.listen`.
  Statuses are the constructors of `Response` (`Status` gives the code).
- The database client calls. The bookings table is a sequence field, and the
  catalog is a sequence passed to the filters. The handler awaits the lookup
  and the insert without catching failures, so a failing store call makes the
  request fail with neither 201 nor 409; in the model the lookup and the
  insert always succeed.
- The race between the lookup and the insert. The code takes no lock and the
  model answers requests one at a time only; concurrent requests can store
  two overlapping bookings in the real service, and the model says nothing
  about that.
- Date parsing and conversion: dates are day numbers produced by the
  `parseDate` parameter; its agreement with the JavaScript runtime is not
  modelled.
- Bodies that are not JSON objects (the JSON parser also accepts arrays):
  `BookingBody` always has five fields, so the schema's single root-level
  issue for such a body is not modelled.
- The UUID regular expression and the schema library's error formatting:
  `isUuid` is a parameter, and issues are kept as a list of (field, kind)
  pairs rather than the library's formatted error object. The library's
  default issue messages are not modelled; the two custom date messages are.
- Catalog.VehicleTypes, Catalog.VehiclesInCategory: the store's `findMany`
  calls give no order; the model answers in catalog order, so the order of
  the answers is the model's choice, not a promise of the service.
- Catalog.VehicleTypes: the wheels query string is taken as an already parsed
  integer; what the lookup does when parsing yields NaN is not modelled.
- The database-seeding script and the React booking form (its field resets
  and request sending are user-interface state).
