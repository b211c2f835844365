# UniEvents API core in Dafny

This project models the server side of UniEvents, a university event
application built on Next.js route handlers over MongoDB (through Mongoose),
together with its client-side authentication store. The model covers:

- the three collections (users, events, registrations) as in-memory tables
  kept in insertion order, with the schemas' required fields, enums,
  defaults and unique indexes;
- registration admission (`POST /api/registrations`): the caller check, the
  event lookup, the capacity check that counts every registration of the
  event whatever its status, the confirmed insert, and how each outcome maps
  to a status code;
- the caller's registration list (`GET /api/registrations`), newest first;
- the event list, sorted by date, and event creation, which stores the body
  as given (organizer included) without asking who the caller is;
- login: lookup by email, password comparison, token claims and the user
  view returned;
- the seeding of three fixed administrator accounts (`User.createAdmins`);
- the client's `useAuth` store (`setAuth`, `logout`, `getAuthHeader`).

The store is a value `Store.Tables`. The handlers that change it are methods
over the shared `Store.Db` object. Each such method is proved equal to a
function on `Tables` (`RegistrationsRoute.Register`, `EventsRoute.Create`,
`AdminSeeding.Seed`), and the lemmas are stated about those functions.

Some modelling conventions:

- Dates are integer timestamps. Object ids are natural numbers taken from a
  counter, so every new document gets a fresh id.
- An id in a request is an `IdArg`:
  - `Absent` is a missing or empty `x-user-id` header, or an `eventId` that
    is missing or null;
  - `Malformed` is a value Mongoose cannot cast to an ObjectId;
  - `Given` is a castable id.
- Each handler takes a `connected` flag, tested first. It is false when
  `dbConnect` throws. In login and event creation the request body is
  parsed right after the connection, so `connected` false also stands for
  a body that is not JSON there. Registration admission parses its body
  only after the caller check, so `RegistrationsRoute.Register` takes a
  second flag, `parsed`, tested after the caller. Either flag false gives
  the handler's catch-all 500.
- Once connected, a store call fails only for the causes the model states:
  an id that does not cast, a failed validation, a duplicate key.
- bcrypt's `hash` and `compare`, and jsonwebtoken's `sign`, are function
  parameters. What the model assumes of bcrypt is stated once, in
  `UserModel.Bcrypt`:
  - a hash is 60 printable ASCII characters long;
  - a password matches its own hash;
  - a printable ASCII password of at most 72 characters does not match the
    hash of a printable ASCII string of another length of at most 72
    characters. bcrypt's key is the password and a NUL terminator, repeated
    to 72 bytes, and for such strings it differs with the length. Strings
    with a NUL, with characters of more than one UTF-8 byte, or longer than
    72 bytes can share a key, so the model assumes nothing about them.

  `UserModel.BcryptSatisfiable` shows that one pair of functions meets all
  three at once.
- `sign` throws when `JWT_SECRET` is unset or empty. The model passes the
  secret as an `Option<string>`.

The code has no duplicate pre-check on registration. A second registration
for the same (user, event) pair is refused only by the unique index, and
the handler's catch-all turns that into a 500 "Failed to register for
event". If that first registration filled the event, the capacity check
comes first and the reply is 400 "Event is full"
(`RegistrationsRoute.SecondAttemptFails`). There is no duplicate-specific
error and no duplicate-specific 400 reply. The client page `project/app/registrations/page.tsx:88` waits for a message,
"You have already applied for this event.", that this handler never sends.
Event creation checks no caller and takes the organizer from the request
body (`EventsRoute.Create`).

## Model

| member | source | states |
|---|---|---|
| `RegistrationModel.ParseStatus` | project/app/api/models/Registrations.ts:14-18 | A status string is accepted exactly when it names one of pending, confirmed, cancelled, and it then parses to that status |
| `RegistrationModel.NewRegistration` | project/app/api/models/Registrations.ts:3-23 | A registration document is created exactly when user and event are present and castable and any given status is in the enum. Status defaults to pending and createdAt to the creation time |
| `Store.AddRegistration` | project/app/api/models/Registrations.ts:25-27 | Create succeeds exactly when the document validates and no stored registration has the same (user, event) pair. Otherwise it fails with a duplicate-key error and changes nothing. It keeps the store consistent: unique ids and unique (user, event) pairs |
| `Store.Db.CreateRegistration` | project/app/api/models/Registrations.ts:3-27 | The shared store's create gives the same result and new state as `AddRegistration` on the old state, and keeps the store consistent (`Db.Valid`) |
| `UserModel.ParseRole` | project/app/api/models/User.ts:9-13 | A role string is accepted exactly when it names one of the five enum roles, and it then parses to that role |
| `UserModel.PreSave` | project/app/api/models/User.ts:17-21 | An unmodified password is saved unchanged. A modified one is replaced by its hash, and nothing but the password changes |
| `UserModel.NewUser` | project/app/api/models/User.ts:5-21 | A user is created exactly when name, email and password are present and non-empty and any given role is in the enum. Role defaults to student, and the stored password is the hash of the one given |
| `Store.AddUser` | project/app/api/models/User.ts:7 | Create succeeds exactly when the document validates and its email is not yet taken. A taken email is a duplicate-key error with the store unchanged, so emails stay unique |
| `Store.Db.CreateUser` | project/app/api/models/User.ts:5-21 | The shared store's create gives the same result and new state as `AddUser` on the old state, and keeps the store consistent (`Db.Valid`) |
| `Store.FindUserByEmail` | project/app/api/models/User.ts:33 | `findOne({ email })` returns a stored user with that email, the first one when it heads the table, and returns nothing exactly when no user has that email |
| `AdminSeeding.SeedOne` | project/app/api/models/User.ts:32-42 | One iteration never removes or changes stored users, touches no other collection and keeps the store consistent |
| `AdminSeeding.Seed` | project/app/api/models/User.ts:31-43 | The seeding loop keeps the existing users as a prefix of the new table, leaves events and registrations untouched and keeps the store consistent |
| `AdminSeeding.SeedCoversEmails` | project/app/api/models/User.ts:25-43 | After seeding, every seeded account's email exists in the user table |
| `AdminSeeding.SeedSkipsPresent` | project/app/api/models/User.ts:33-34 | Accounts whose emails all exist are skipped: the store is unchanged |
| `AdminSeeding.SeedIdempotent` | project/app/api/models/User.ts:31-43 | Seeding twice gives the same store as seeding once |
| `AdminSeeding.CreateAdmins` | project/app/api/models/User.ts:24-44 | The loop over the three fixed accounts, with the password hashed before `create`, leaves the shared store equal to `Seed` of the old store, and keeps it consistent |
| `AdminSeeding.FirstSeeded` | project/app/api/models/User.ts:25-41 | Seeding an empty store puts the first account first, under id 0. Its stored password is the hash of its hash as written, or the hash once when hashed once |
| `AdminSeeding.FirstAccountOnEmpty` | project/app/api/models/User.ts:26-41 | On an empty store the first account is created under id 0 with role computer_engineering and its (possibly twice) hashed password |
| `AdminSeeding.SeededAdminLoginFails` | project/app/api/models/User.ts:35-39 | As written, a freshly seeded administrator who logs in with the configured password gets 401 "Invalid credentials" |
| `AdminSeeding.SeededAdminLoginSucceeds` | project/app/api/models/User.ts:17-21 | With the password hashed once, the same login gets 200 |
| `EventModel.NewEvent` | project/app/api/models/Events.ts:4-13 | An event document is created exactly when title (non-empty), date and a castable organizer are present. Title, date, organizer, capacity and the optional strings are as given, and createdAt defaults to the creation time |
| `EventModel.Limited` | project/app/api/registrations/route.ts:32 | The truthiness of `event.capacity`: an event sets a limit exactly when its capacity is present and not 0 |
| `Store.AddEvent` | project/app/api/models/Events.ts:4-13 | Create appends a valid event under a fresh id and otherwise changes nothing. It keeps event ids unique and titles present |
| `Store.Db.CreateEvent` | project/app/api/models/Events.ts:4-13 | The shared store's create gives the same result and new state as `AddEvent` on the old state, and keeps the store consistent (`Db.Valid`) |
| `Sorting.SortBy` | project/app/api/events/route.ts:8 | The result is a permutation of the input, in non-decreasing order of the key |
| `EventsRoute.ByDate` | project/app/api/events/route.ts:8 | The key of `.sort({ date: 1 })`: the event's date, so ascending order is earliest first |
| `EventsRoute.Get` | project/app/api/events/route.ts:5-13 | 200 with every stored event, none added or lost (same multiset), in non-decreasing date order. A store failure gives 500 "Failed to fetch events" |
| `EventsRoute.Create` | project/app/api/events/route.ts:15-23 | 201 exactly when the body passes the schema. The event is stored with every field as given (title, date, organizer, capacity, descriptions, location, category; createdAt as given or now), with the client's organizer, under the next id, the counter advancing by one, appended after the unchanged earlier events, and users and registrations are untouched. Otherwise 500 "Failed to create event" with the store unchanged. There is no caller parameter: no authentication check |
| `EventsRoute.Post` | project/app/api/events/route.ts:15-23 | The handler on the shared store gives the reply and new state of `Create` on the old state, and keeps the store consistent |
| `LoginRoute.Login` | project/app/api/auth/login/route.ts:7-51 | Unknown email and failed comparison both give 401 "Invalid credentials". 200 exactly when the user is found, the password compares and a secret is set. The token is `sign` over exactly {userId, email, role} with expiry "7d", and the view is id, name, email, role. No connection, or a found user whose password compares while `JWT_SECRET` is unset or empty (so `sign` throws), gives 500 "Login failed" |
| `LoginRoute.FailuresIndistinguishable` | project/app/api/auth/login/route.ts:13-28 | An unknown email and a wrong password for a known one produce identical replies |
| `LoginRoute.CompareOnlyAfterLookup` | project/app/api/auth/login/route.ts:13-22 | For an unknown email the reply does not depend on the comparison function: the password is compared only after the user is found |
| `UserModel.BcryptSatisfiable` | project/app/api/auth/login/route.ts:22 | One hash and compare pair (a hash that records the capped length of the password) meets every assumption the model makes of bcrypt, so the lemmas that assume them are not vacuous |
| `UserModel.RehashMismatch` | project/app/api/models/User.ts:17-21 | A printable password of at most 72 characters, other than 60 long, does not match the hash of its own hash: hashing twice locks the password out |
| `LoginRoute.UniqueEmailFound` | project/app/api/auth/login/route.ts:13 | With unique emails, looking up a stored user's email finds that user |
| `LoginRoute.StoredHashLogsIn` | project/app/api/auth/login/route.ts:13-45 | A stored user whose password is the hash of `p` logs in with `p` when a secret is set. The token is signed over that user's claims and the view is that user's |
| `LoginRoute.FirstUserLogsIn` | project/app/api/auth/login/route.ts:13-45 | The first user of the table logs in with any password that matches its stored hash |
| `Store.CountAppend` | project/app/api/registrations/route.ts:31 | Appending a registration raises its own event's count by one and leaves every other event's count unchanged |
| `Store.ForUser` | project/app/api/registrations/route.ts:69 | The query returns exactly the registrations of that user |
| `Store.ForEvent` | project/app/api/registrations/route.ts:31 | The query returns exactly the registrations of that event, all statuses |
| `Store.CountForEvent` | project/app/api/registrations/route.ts:31 | `countDocuments({ event })`: the number of stored registrations of that event, whatever their status |
| `Store.FindEvent` | project/app/api/registrations/route.ts:22 | `findById` returns a stored event with that id, and returns nothing exactly when no event has that id |
| `RegistrationsRoute.Lookup` | project/app/api/registrations/route.ts:22-23 | `Event.findById(eventId)` for an id that casts: the stored event with that id, if any. A missing or null id finds nothing |
| `RegistrationsRoute.Register` | project/app/api/registrations/route.ts:6-53 | The first failing check decides: no connection 500, no caller 401, a body that is not JSON 500, an uncastable event id 500, an unknown event 404, a full event 400. When the event is found and not full, an uncastable caller or an already registered (caller, event) pair gives 500 "Failed to register for event" with the store unchanged. 201 exactly when the event exists, is not full (capacity absent or 0 means unlimited) and the pair is free. The one added record is {caller, event, confirmed, now} under a fresh id. Every other reply leaves the store unchanged, and consistency is kept |
| `RegistrationsRoute.Full` | project/app/api/registrations/route.ts:32 | The capacity test: the event sets a limit (`EventModel.Limited`) and its registration count has reached that capacity |
| `RegistrationsRoute.Post` | project/app/api/registrations/route.ts:6-53 | The handler on the shared store gives the reply and new state of `Register` on the old state, and keeps the store consistent |
| `RegistrationsRoute.Get` | project/app/api/registrations/route.ts:55-79 | No caller gives 401, an uncastable caller or a store failure 500. Otherwise 200 with exactly the caller's registrations (same multiset as the filter) in non-increasing createdAt order |
| `RegistrationsRoute.NewestFirst` | project/app/api/registrations/route.ts:71 | The key of `.sort({ createdAt: -1 })`: the negated creation time, so ascending order is newest first |
| `RegistrationsRoute.SuccessWithinCapacity` | project/app/api/registrations/route.ts:31-44 | After a successful admission to an event with a truthy capacity, the event's count is at most the capacity |
| `RegistrationsRoute.NoCapacityNoLimit` | project/app/api/registrations/route.ts:32 | With capacity absent or 0, a caller whose pair is free is admitted however many are registered |
| `RegistrationsRoute.SecondAttemptFails` | project/app/api/registrations/route.ts:31-52 | Once admitted, the same caller retrying the same event is refused and the store is unchanged. The reply is 400 if that admission filled the event, else 500 |
| `StoreInvariants.RegisterKeepsSound` | project/app/api/registrations/route.ts:21-46 | Admission keeps the store sound: consistent, every registration refers to a stored event, and no event with a truthy capacity holds more than it allows |
| `StoreInvariants.CreateEventKeepsSound` | project/app/api/events/route.ts:18-20 | Event creation keeps the store sound: the new id is fresh, so no registration counts against it |
| `StoreInvariants.SeedKeepsSound` | project/app/api/models/User.ts:31-43 | Seeding keeps the store sound |
| `StoreInvariants.UniqueIdFound` | project/app/api/registrations/route.ts:22 | With unique event ids, looking up a stored event's id finds that event |
| `StoreInvariants.FindEventAppend` | project/app/api/events/route.ts:19 | Appending an event does not change what an already stored id resolves to |
| `StoreInvariants.NoReferenceNoCount` | project/app/api/registrations/route.ts:31 | An event id no registration refers to has count zero |
| `ClientAuth.AuthStore.constructor` | project/lib/auth.ts:22-23 | A new store has token null and user null |
| `ClientAuth.AuthStore.SetAuth` | project/lib/auth.ts:24 | Both fields take exactly the given token and user, whatever they held |
| `ClientAuth.AuthStore.Logout` | project/lib/auth.ts:25 | Both fields become null |
| `ClientAuth.HasToken` | project/lib/auth.ts:28 | The truthiness of the token: present and not the empty string |
| `ClientAuth.AuthStore.GetAuthHeader` | project/lib/auth.ts:26-29 | A header exactly when the token is truthy (not null, not empty), and then its value is "Bearer " followed by the token. It reads the state and changes nothing |
| `ClientAuth.Session` | project/lib/auth.ts:24-29 | After `setAuth` with a non-empty token the header is "Bearer " + token, and with an empty token there is none. After `logout` there is none, and a second `logout` leaves the same state |

## Left out

- `populate('event')` in the registration list: the model returns registrations with the event's id, not the embedded event.
- The race between counting and creating in admission: concurrent requests can both pass the capacity check. The model is one sequential store, and `StoreInvariants` holds only for sequential calls.
- bcrypt and jsonwebtoken: `hash`, `compare` and `sign` are parameters. The hash is deterministic in the model, so bcrypt's random salt is not modelled. `UserModel.Bcrypt` states what the model assumes of bcrypt.
- Mongoose's ObjectId casting is abstracted as `IdArg`. A client-supplied `_id`, the stripping of fields the schema does not list (a body's `description` against the schema's `descriptions`), and the casting of values to Number or Date are not modelled. Event fields carry their schema types.
- Dates are integer timestamps. Capacity is an integer: a fractional or NaN capacity is not modelled.
- A login body without `email` or `password` is not modelled. Both are strings in the model.
- `AdminSeeding.CreateAdmins`: a `create` that throws would end the source's loop, while the model's loop goes on. For the three fixed accounts this cannot happen once an email is free (`SeedCoversEmails`, under a 60-character hash).
- The `persist` middleware of the client store, which writes it to localStorage.
- The connection cache (`project/lib/db.ts`), CORS handling, the count endpoints, the event detail, update and delete handlers (`project/app/api/events/[id]/route.ts`), and all UI pages. Events are never deleted in the model, so `StoreInvariants.ReferencesResolve` holds there.
- The order MongoDB gives to documents with equal sort keys. The model uses one fixed order and proves only the permutation and the ordering.

## Findings

| source | as written | input that shows it | evidently intended | confidence | as-written member | corrected member |
|---|---|---|---|---|---|---|
| project/app/api/models/User.ts:35-39 | `createAdmins` hashes the password and passes the hash to `create`. The pre-save hook (User.ts:17-21) then hashes it again, so the stored value is hash(hash("Umib.2025")) | Empty store; seed the admins; log in as blerona.tmava@umib.net with Umib.2025: 401 "Invalid credentials" | The stored value is the hash of "Umib.2025" once, so the seeded administrators can log in | high; not executed | `AdminSeeding.SeededAdminLoginFails` | `AdminSeeding.SeededAdminLoginSucceeds` |

`AdminSeeding.Seed` takes a `prehash` flag. True is the code as written, and `CreateAdmins` uses it. False is the corrected single hashing. The idempotence, coverage and soundness lemmas are proved for both values.
