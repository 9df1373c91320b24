# Driving-school booking backend: table operations in Dafny

This project models the table logic of a driving-school booking backend.
Admins publish time slots, learners book them, admins run training courses
("vormingsmomenten") that people register for as candidate (`KANDIDAAT`) or
companion (`BEGELEIDER`), and admins approve, patch or deny user accounts.
The project also models the event object sent to Google Calendar for an
appointment.

Each database table is an in-memory sequence kept in insertion order. Instants
are natural numbers counting milliseconds. Every HTTP answer the routes give
becomes a result datatype:

- `Conflict`, `NotFound`, `BadRequest` and `ServerError` stand for the 400,
  404 and 500 answers.
- `None` / `false` stand for the 404 of `PUT /book` and `DELETE /:id` on
  time slots. The `false` of `Deny` stands for the 500 the database gives
  when the user does not exist.

Modules, one per source file:

- `TimeSlots` (timeslots.dfy) models `routes/timeslots.js`:
  - `MatchesOverlapQuery` is the overlap query exactly as written. Its Prisma
    `where` lists the same conjunction twice under `OR` and adds a `NOT` list.
    The model proves the result is exactly the half-open overlap test, so
    slots that only touch never conflict.
  - `FirstConflict` is the `findFirst` over that query.
  - `Truncate` is `setMilliseconds(0)`.
  - The queries are `ListAll`, `AvailableSlots` and `FindByStart`.
  - The class `SlotTable` mutates the table in place with `Create`, `BookSlot`
    and `DeleteSlot`. Its invariant `Valid()` says three things: ids are
    unique, every stored instant is a whole second, and no two slots overlap.
    All three methods keep it.
- `Courses` (courses.dfy) models `routes/course.js`:
  - the availability filter, as the three filters the code applies in order;
  - the per-role counts;
  - the `select` projection of the included registrations (first name, last name
    and role), which both listings return with each course;
  - the class `CourseStore` with `CreateCourse` and `Register`. `Register`
    stores the registration before it looks the course up.
- `Users` (users.dfy) models `routes/users.js`. A user row is a map from
  column name to JSON value, because the routes copy request bodies into rows
  key by key. `BuildPatch` is the `forEach` loop that builds the update
  dictionary. The class `UserTable` holds the dashboard patch, the
  self-service patch, approval and denial.
- `Calendar` (calendar.dfy) models `utils/googleCalendar.js`:
  - the event builder: the summary, the start and end in Europe/Amsterdam, and
    the three-way location fallback;
  - `NormalizeKey`, the `\n` replacement applied to the private key.
- `Common` (common.dfy) holds the shared helpers: `Option`, an order-keeping
  `Filter`, an insertion sort that stands in for `orderBy`, and code-point
  string order.

Three behaviours of the code shape the model:

- The overlap check compares the raw request instants with the stored ones.
  Only the stored instants are truncated to whole seconds.
  `CreateKeepsDisjoint` proves this order is still sound when every stored
  slot is a whole second.
- Booking a slot does not check that it is `AVAILABLE`. It hides the slot and
  marks it `BOOKED` whatever its status was.
- An overlapping slot is rejected with a 400 that names the clashing slot.

## Model

| member | source | states |
|---|---|---|
| TimeSlots.MatchesOverlapQuery | routes/timeslots.js:21-50 | the overlap query, with its duplicated OR branch and NOT list, holds exactly when the two half-open windows share an instant; a slot ending where the new one starts, or starting where it ends, never matches |
| TimeSlots.FirstConflict | routes/timeslots.js:21-55 | returns the earliest-inserted stored slot that overlaps the requested window, with every earlier slot disjoint from it; returns none exactly when no stored slot overlaps |
| TimeSlots.Truncate | routes/timeslots.js:57-62 | the truncated instant is a whole second, is never above the input, loses less than 1000 ms, and leaves whole seconds unchanged |
| TimeSlots.TruncateKeepsSecondBound | routes/timeslots.js:57-62 | a whole-second instant at or below t stays at or below t after t is truncated |
| TimeSlots.TruncateIdempotent | routes/timeslots.js:61-62 | truncating twice is truncating once |
| TimeSlots.NewSlot | routes/timeslots.js:57-71 | the stored slot carries the given id, isVisible and status; its start and end are the request's, truncated to whole seconds |
| TimeSlots.CreateKeepsDisjoint | routes/timeslots.js:21-71 | on a table of pairwise-disjoint whole-second slots, a request that passes the raw-instant guard still leaves the table pairwise disjoint and whole-second after its truncated slot is appended |
| TimeSlots.SlotTable.Create | routes/timeslots.js:17-73 | on a conflict, answers with the earliest-inserted clashing slot and leaves table and id counter unchanged; otherwise appends exactly one new slot under the next id; keeps the table invariant |
| TimeSlots.ListAllSpec | routes/timeslots.js:9 | the full listing is a permutation of the table, ascending by start |
| TimeSlots.AvailableSlotsSpec | routes/timeslots.js:85-96 | the available listing holds exactly the AVAILABLE, visible slots starting at or after now, each as often as in the table, ascending by start |
| TimeSlots.FindByStart | routes/timeslots.js:106-131 | a missing start time and an unparsable one give their own 400 answers; a found slot is in the table and starts exactly at the requested instant; not-found happens exactly when no slot starts then |
| TimeSlots.IndexOfId | routes/timeslots.js:144-148 | finds the position of a slot with the given id, or reports that none has it |
| TimeSlots.BookIn | routes/timeslots.js:150-156 | booking keeps every slot's id and times; slots with the target id become hidden and BOOKED whatever their previous status; every other slot is unchanged |
| TimeSlots.BookInIdempotent | routes/timeslots.js:150-156 | booking the same id twice gives the same table as booking it once |
| TimeSlots.BookInKeepsInvariants | routes/timeslots.js:150-156 | booking keeps ids unique, instants whole-second and slots disjoint |
| TimeSlots.BookAtIndex | routes/timeslots.js:150-156 | with unique ids, updating the one slot found by id in place is the same as booking by that id |
| TimeSlots.SlotTable.BookSlot | routes/timeslots.js:144-158 | an unknown id answers not-found and leaves the table unchanged; otherwise only the target slot changes, and the returned slot is hidden and BOOKED |
| TimeSlots.RemoveId | routes/timeslots.js:175 | after deletion, the remaining slots are exactly the stored slots with a different id |
| TimeSlots.RemoveAtIndex | routes/timeslots.js:169-175 | with unique ids, cutting out the slot found by id removes exactly that slot: one element fewer, the same multiset minus that slot, and the others in their order |
| TimeSlots.RemoveIdKeepsInvariants | routes/timeslots.js:175 | removing a slot keeps ids unique, instants whole-second and slots disjoint |
| TimeSlots.SlotTable.DeleteSlot | routes/timeslots.js:165-177 | an unknown id answers not-found and leaves the table unchanged; otherwise exactly that slot is removed and the others are untouched |
| Courses.AvailableCoursesSpec | routes/course.js:29-48 | every available course starts strictly after now, has fewer than 26 registrations and fewer than 20 BEGELEIDER registrations; every future course meeting both limits is listed; the list is an order-preserving subsequence of the future courses |
| Courses.CountsGrow | routes/course.js:44-48 | adding a registration never lowers a course's total or BEGELEIDER count |
| Courses.RegisteringNeverFreesCourse | routes/course.js:44-48 | a course that is not available stays unavailable after one more registration is stored |
| Courses.RegistrationsOf | routes/course.js:60-66 | the registrations included with a course are those naming it, each exactly as often as in the table, as an order-keeping subsequence of the table |
| Courses.RoleCountOfCourse | routes/course.js:70-71 | counting a role among a course's included registrations gives the number of registrations in the whole table that name the course with that role |
| Courses.AvailableListing | routes/course.js:30-48 | the available courses in order, each with its included registrations projected to first name, last name and role |
| Courses.AvailableCourseFacts | routes/course.js:30-48 | a course listed as available is stored, starts after now, has fewer than 26 registrations and fewer than 20 BEGELEIDER registrations in the whole table |
| Courses.AvailableListingSpec | routes/course.js:30-48 | every entry of the available listing is a stored course starting after now, with fewer than 26 included registrations and fewer than 20 BEGELEIDER registrations in the whole table |
| Courses.WithCounts | routes/course.js:60-76 | the included registrations are the projection, in table order, of exactly the registrations naming the course, each once; begeleiderCount and kandidaatCount are the numbers of registrations in the table naming the course with that role; their sum is at most the number of included registrations |
| Courses.RegistrationCounts | routes/course.js:69-77 | one entry per course, in table order; entry i is WithCounts of course i, so its counts are the numbers of BEGELEIDER and KANDIDAAT registrations in the table naming course i |
| Courses.FindCourse | routes/course.js:176-180 | finds a course with the given id, or reports that none has it |
| Courses.CourseStore.CreateCourse | routes/course.js:141-155 | stores exactly one course with exactly the given start and end under the next id; registrations are untouched |
| Courses.CourseStore.Register | routes/course.js:157-184 | always appends the registration under the next id, before the course lookup; answers not-found exactly when no course has the requested id, and the registration is kept in that case; a found course is the only stored course with that id |
| Users.IndexOfUser | routes/users.js:82-88 | finds the first row whose id column is the requested id, or reports that no row has it |
| Users.DefinedEntries | routes/users.js:53-64 | the data applied by the dashboard update is every defined body property except id; id is never part of it |
| Users.BuildPatch | routes/users.js:91-98 | the built patch has exactly the body keys whose value is not undefined and whose name is not appointments, each with its body value |
| Users.ApplyPatch | routes/users.js:101-104 | an update gives the patched columns their new values and leaves every other column unchanged |
| Users.Approved | routes/users.js:130-136 | an approved row is confirmed and carries the new password hash; every other column is unchanged |
| Users.ApprovedIdempotent | routes/users.js:130-136 | approving twice with the same hash is approving once |
| Users.ListUsersSpec | routes/users.js:17-19 | the listing is a permutation of the table, ascending by first name |
| Users.UserTable.DashboardUpdate | routes/users.js:51-71 | answers 400, changing nothing, exactly when the id is missing or falsy; answers 500, changing nothing, exactly when a truthy id is non-numeric or names no row; every other request updates the named row, and only that row, by the body without id |
| Users.UserTable.Update | routes/users.js:76-112 | an unknown user answers not-found and the table is unchanged; otherwise only that row changes, by exactly the built patch |
| Users.UserTable.Approve | routes/users.js:117-136 | an unknown user answers not-found and the table is unchanged; otherwise only that row changes: it is confirmed and gets the new hash |
| Users.UserTable.Deny | routes/users.js:173-182 | removes exactly the user with that id and keeps the others in order; an unknown id fails and changes nothing |
| Calendar.PickupAddress | utils/googleCalendar.js:36 | the pickup address begins with the street (a null column renders as "null") and is longer than it |
| Calendar.EventLocation | utils/googleCalendar.js:33-37 | the location is the appointment's own location when non-empty, else the pickup address when a street is given, else "Baeyens Rijopleiding"; it is never empty |
| Calendar.Summary | utils/googleCalendar.js:24 | the summary is "Examen - " for an exam or "Rijles - " for a lesson, followed by first name, a space and last name |
| Calendar.SummaryTellsKind | utils/googleCalendar.js:24 | two equal summaries belong to the same kind of appointment |
| Calendar.BuildEvent | utils/googleCalendar.js:23-38 | start and end carry the appointment's own instants in time zone Europe/Amsterdam; the summary and the non-empty location are as above |
| Calendar.NormalizeKey | utils/googleCalendar.js:10 | the normalised key has no backslash-n pair left, is no longer than the input, and starts with n only if the input does |
| Calendar.NormalizeKeyFixesPlain | utils/googleCalendar.js:10 | a key without backslash-n pairs is left unchanged |
| Calendar.NormalizeKeyIdempotent | utils/googleCalendar.js:10 | normalising twice is normalising once |
| Calendar.NormalizeKeyAppend | utils/googleCalendar.js:10 | normalising a key in two pieces gives the same text as normalising it whole, unless a backslash ending the first piece pairs with an n opening the second |
| Calendar.NormalizeKeySplit | utils/googleCalendar.js:10 | every backslash-n pair becomes one newline whatever text surrounds it, with the text on either side normalised on its own |
| Calendar.NormalizeKeyUndoesEscape | utils/googleCalendar.js:10 | for a key with no backslash-n pair of its own, normalisation restores the key after its newlines were written as backslash-n |
| Calendar.ServiceKey | utils/googleCalendar.js:7-11 | the key stays undefined exactly when the variable is unset or empty; otherwise it is NormalizeKey of the variable, so it holds no backslash-n pair and is no longer than the variable |

## Left out

- HTTP plumbing is not modelled: Express routing, status codes, JSON bodies and the `console` logging.
- The 500 answers that a failing database gives are not modelled. The exceptions are the two updates the database rejects for an unknown id, dashboard update and deny; they appear as `ServerError` / `false` with no state change.
- Check-then-act races are not modelled. These are the overlap check before insert and the lookup before book, delete, update and approve. The model is sequential.
- The human-readable overlap message is not built. It is formatted with `toLocaleTimeString`, so a conflict returns only the clashing slot.
- Date parsing and ISO formatting are abstracted. Instants are already-parsed milliseconds. An unparsable `startTime` on lookup is the `Unparsable` case, and event times carry the instant instead of its ISO text.
- Path parameters are taken as already-parsed integers. A `parseInt` that yields NaN, which makes the database call throw, is not modelled.
- Database defaults are not modelled. A slot request always carries `isVisible` and `status`, so the defaults the schema applies to omitted fields play no part.
- Schema validation of user updates is not modelled. Every patch key is treated as a column the database accepts. Unknown keys, mistyped values and relation keys, which the database would reject with a 500, are not distinguished. Nothing keeps user ids unique, because a patch may write the `id` column, so user lookups take the first matching row.
- Ordering is approximated. `orderBy` is modelled as a stable insertion sort, which is one admissible order for equal keys. First names compare by code point, not by the database collation. A row whose `firstName` is not a string sorts as the empty name.
- The database schema is not part of this model. If it enforces a foreign key from registration to course, `POST /register` for a missing course would fail at the insert rather than answer 404 after it.
- Password generation and hashing are external. The approval hash is a parameter.
- No email is sent. The course confirmation, the approval email and utils/sendMail.js are not modelled.
- The Excel export, `GET /` and `GET /:id` of courses, and `GET /:id` of users are passthroughs with no logic of their own.
- Authentication and role checks are not modelled: routes/auth.js and the JWT middleware in utils/utils.js.
- The Google Calendar API calls are not modelled: `events.insert` and `deleteCalendarEvent`. Only the event value is.
- Appointment creation and cancellation, exam-slot cleanup and a book-only-if-AVAILABLE rule are not part of this model. routes/appointments.js only stores the request body, and routes/locations.js only looks a location up by name.
- FirstConflict and FindByStart answer with the earliest-inserted matching slot. A `findFirst` without `orderBy` returns whichever matching row the database yields first, with no guaranteed order, and an update such as `PUT /book` may move a row. The earliest-inserted match is one admissible answer; the model does not capture the others.
- TimeSlots.FindByStart: states that a found slot is in the table and starts at the requested instant, not that it is the first such slot in table order.
