# EventZen: ownership-scoped events and attendees, in Dafny

EventZen lets a signed-in organizer create events and manage the people
registered for them. This project models the backend's three controllers
and the store under them, together with the dashboard's list filter:

- **Events API** (`api/events`). The controller carries `[Authorize]`, so a
  request without a valid bearer token gets 401 before any action runs, and
  nothing changes. Each action that runs reads the caller's id from the
  token's NameIdentifier claim and only ever shows or changes events that
  caller organises. Someone else's event is "not found", exactly like a
  missing one. Deleting an event deletes its attendees too.
- **Attendees API** (`api/attendees`). Anyone may register for an event,
  signed in or not. Reading, changing and deleting registrations is for the
  organizer of the event. Anyone else gets Forbidden, so the API does not
  hide whether a registration exists. Names and phones are trimmed, and
  e-mails are lower-cased and trimmed, before they are stored.
- **Auth API** (`api/auth`). Registration adds a user whose e-mail no
  other user has, compared case-insensitively. A first or last name longer
  than its 50-character column makes the insert fail, and nothing catches
  that, so the answer is a 500. Login checks the password
  and issues a token that identifies the user by id and expires three
  hours later.
- **Store** (`ApplicationDbContext` over MySQL). It is a class that holds
  users, event rows and attendee rows. Its invariant says that keys match
  ids, that every event's organizer is a user, that every attendee's
  event exists and that every stored attendee's name and phone pass the
  checks of the request body. Inserts take the next identity value. An insert fails, and
  nothing changes, when a value does not fit its column: strict MySQL
  refuses it and the controller answers 500. An attendee insert also fails
  when its event does not exist, because of the foreign key.
- **Dashboard**. It shows the caller's events through an "all / upcoming /
  past" filter. After a confirmed delete that succeeded, it drops the event
  from its local list.

Every controller action returns an `Outcome`, with one constructor per
status code it can produce. The store operations are methods of the
`Database` class. Each states the whole new state, and each keeps
`Valid()`. The controller actions are methods at module level that take the
`Database`. The two list queries are methods too: they select the keys,
order them with `Ordering.KeysInOrder` and read the rows with
`Ordering.RowsAt`. Login changes nothing, so it is a function. So are the
lookups the contracts mention: `GetUserEvent`, `UserExists`,
`IsUserEventOrganizer`, `FindByEmail` and `GetCurrentUserId`. An events
action takes `authenticated`, which says whether the request carried a
valid token.

What the clocks and random sources produce is passed in as a parameter:
`now`, the new user's GUID and the token's `jti`. So are the identity
library's password hashing and checking, its validators and the token
signer (`AuthController.Libraries`). Timestamps are whole seconds. A budget
is a whole number of hundredths, which is exactly what a `decimal(10,2)`
column holds.

Some behaviours of the code are modelled as written:

- `POST api/attendees/register` does not check in the controller that the
  event exists. The foreign key makes the insert fail, so the answer is a
  500 and not a 400.
- `RegisterModel` and `LoginModel` declare `Email` and `Password` as
  non-nullable strings. The backend is an ASP.NET Core 6+ project with
  top-level statements, and such projects enable nullable reference types,
  so model validation treats those two fields as `[Required]`. A blank
  e-mail or password is therefore a bad request before the action's own
  emptiness test runs (`AuthController.CredentialsMissing`). The project
  file is not part of this model, so this setting is inferred.
- Nothing makes an event's start come before its end, and the model
  imposes no such order either.
- The e-mail is validated before it is lower-cased and trimmed. So a body
  that passes validation can still be stored with an e-mail that would
  fail it: `Models.NormalizedEmailCanBeInvalid` shows " @x" becoming "@x".

## Model

| member | source | states |
|---|---|---|
| Text.IsWhiteSpace | EventZenBackend/Controllers/AttendeesController.cs:124 | defines the characters `char.IsWhiteSpace` accepts, which `Trim` drops: the Unicode White_Space set |
| Text.IsBlank | EventZenBackend/Controllers/EventsController.cs:192-193 | defines a blank string: every character is white space, as `[Required]` refuses |
| Text.SkipLeading | EventZenBackend/Controllers/AttendeesController.cs:124 | the scan stops at the first character from the start index on that is not white space, and everything it passed is white space |
| Text.SkipTrailing | EventZenBackend/Controllers/AttendeesController.cs:124 | the scan down from the end stops after the last character that is not white space, never below the start, and everything it passed is white space |
| Text.Trim | EventZenBackend/Controllers/AttendeesController.cs:124 | the result is no longer than the input, neither starts nor ends with white space, and is empty exactly when the input is blank |
| Text.TrimIsInfix | EventZenBackend/Controllers/AttendeesController.cs:124 | what Trim keeps is the infix of the input that starts at its first character that is not white space, and what it drops on both sides is blank |
| Text.TrimKeepsProperty | EventZenBackend/Controllers/AttendeesController.cs:126 | a property every character of the input has, every character Trim keeps has |
| Text.TrimKeepsNonWhiteSpace | EventZenBackend/Controllers/AttendeesController.cs:126 | a character that is not white space survives Trim |
| Text.TrimIdempotent | EventZenBackend/Controllers/AttendeesController.cs:175 | trimming a trimmed string changes nothing |
| Text.LowerChar | EventZenBackend/Controllers/AttendeesController.cs:125 | an ASCII capital becomes its small letter; every other character stays |
| Text.UpperChar | EventZenBackend/Controllers/AuthController.cs:30 | an ASCII small letter becomes its capital; every other character stays |
| Text.Lower | EventZenBackend/Controllers/AttendeesController.cs:125 | lower-casing keeps the length |
| Text.Upper | EventZenBackend/Controllers/AuthController.cs:30 | the upper-casing used for e-mail lookups keeps the length |
| Text.LowerIdempotent | EventZenBackend/Controllers/AttendeesController.cs:125 | a lower-cased string has no ASCII capital, and lower-casing it again changes nothing |
| Text.LowerSkipLeading | EventZenBackend/Controllers/AttendeesController.cs:125 | lower-casing does not move where the leading white space ends |
| Text.LowerSkipTrailing | EventZenBackend/Controllers/AttendeesController.cs:125 | lower-casing does not move where the trailing white space starts |
| Text.LowerSlice | EventZenBackend/Controllers/AttendeesController.cs:125 | lower-casing a slice gives the same slice of the lower-cased string |
| Text.LowerTrim | EventZenBackend/Controllers/AttendeesController.cs:125 | lower-casing commutes with Trim |
| Models.InboundType | EventZenBackend/Controllers/EventsController.cs:154 | defines how an incoming token's claim types are read: the JWT handler maps `sub` to NameIdentifier and keeps the others |
| Models.Required | EventZenBackend/Controllers/AttendeesController.cs:257 | defines `[Required]` on a string: present and not blank |
| Models.MaxLength | EventZenBackend/Models/Event.cs:15 | defines `[StringLength(n)]`: an absent value passes, a present one has at most n characters |
| Models.ValidEmail | EventZenBackend/Controllers/AttendeesController.cs:258 | defines `[EmailAddress]`: an absent value passes, a present one has exactly one '@', neither first nor last |
| Models.ValidPhone | EventZenBackend/Controllers/AttendeesController.cs:259 | defines `[Phone]`: an absent value passes, a present one has a digit and otherwise only digits, white space and `+-.()` |
| Models.WellFormedEvent | EventZenBackend/Models/Event.cs:12-35 | defines the rules the Event class declares: non-blank title and location of at most 100 characters, a description of at most 500, a budget a `decimal(10,2)` holds and an organizer |
| Models.EventFitsColumns | EventZenBackend/Models/Event.cs:12-30 | defines what the event columns accept: title and location of at most 100 characters, description of at most 500, budget within `decimal(10,2)` |
| Models.AttendeeFitsColumns | EventZenBackend/Models/Attendee.cs:11-12 | defines what the attendee columns accept: a name of at most 100 characters |
| Models.UserFitsColumns | EventZenBackend/Models/User.cs:8-12 | defines what the user columns accept: names of at most 50 characters, and an e-mail and user name of at most 256 |
| Models.ValidEventDto | EventZenBackend/Controllers/EventsController.cs:190-210 | defines the validation of an event body: title, description and location non-blank and a budget of at least 0 |
| Models.ValidCreateAttendeeDto | EventZenBackend/Controllers/AttendeesController.cs:256-260 | defines the validation of a registration: a non-blank name of at most 100 characters, a non-blank valid e-mail, a valid phone if any and an event id from 1 to `int.MaxValue` |
| Models.ValidUpdateAttendeeDto | EventZenBackend/Controllers/AttendeesController.cs:262-265 | defines the validation of an attendee update: the registration's rules without the event id |
| Models.NormalizeEmail | EventZenBackend/Controllers/AttendeesController.cs:125 | a stored e-mail is no longer than the one given, has no white space at either end and has no ASCII capital |
| Models.NormalizeEmailIdempotent | EventZenBackend/Controllers/AttendeesController.cs:176 | normalising a normalised e-mail changes nothing, so an update that repeats the stored e-mail keeps it |
| Models.TrimPhone | EventZenBackend/Controllers/AttendeesController.cs:126 | an absent phone stays absent, and a present one stays present and gets no longer |
| Models.TrimmedNameStaysValid | EventZenBackend/Controllers/AttendeesController.cs:257 | a name that passes `[Required]` and `[StringLength(100)]` still passes both once trimmed, so the stored name fits its column |
| Models.TrimPhoneKeepsValid | EventZenBackend/Controllers/AttendeesController.cs:126 | a phone that passes `[Phone]` still passes it once trimmed, so the stored phone is valid |
| Models.NormalizedEmailCanBeInvalid | EventZenBackend/Controllers/AttendeesController.cs:258 | " @x" passes `[EmailAddress]`, but it is stored as "@x", which does not |
| Ordering.FirstExists | EventZenBackend/Controllers/EventsController.cs:34 | every non-empty set of rows has a row that may come first in descending order |
| Ordering.KeysInOrder | EventZenBackend/Controllers/EventsController.cs:32-35 | lists each selected key exactly once, in non-increasing rank |
| Ordering.RowsInOrderAreSelected | EventZenBackend/Controllers/EventsController.cs:32-35 | the ordered list holds exactly the rows at the selected keys |
| Ordering.RowsAt | EventZenBackend/Controllers/EventsController.cs:35 | the rows at the listed keys, in the same order |
| Store.WithoutEvent | EventZenBackend/Data/ApplicationDbContext.cs:25-29 | the cascade keeps only rows that were there and leaves them unchanged |
| Store.CascadeRemovesExactlyItsAttendees | EventZenBackend/Data/ApplicationDbContext.cs:25-29 | the cascade removes exactly the deleted event's attendees and keeps every other row |
| Store.CascadeKeepsForeignKey | EventZenBackend/Data/ApplicationDbContext.cs:25-29 | after the cascade, every attendee row still points at an existing event |
| Store.Database.EventRow | EventZenBackend/Data/ApplicationDbContext.cs:20-23 | defines a valid event row: its key is its id and below the identity counter, its organizer is a user, and it keeps the Event class's rules |
| Store.Database.AttendeeRow | EventZenBackend/Models/Attendee.cs:11-21 | defines a valid attendee row: its key is its id and below the identity counter, its event exists, its name is non-blank and fits its column, and its phone passes `[Phone]` |
| Store.Database.constructor | EventZenBackend/Data/ApplicationDbContext.cs:8-14 | an empty store satisfies the invariant |
| Store.Database.AddUser | EventZenBackend/Models/User.cs:8-12 | succeeds exactly when the names fit their 50-character columns and the e-mail and user name fit theirs; then adds exactly the new user, keeping e-mails unique and the invariant; on failure nothing changes |
| Store.Database.AddEvent | EventZenBackend/Data/ApplicationDbContext.cs:20-23 | succeeds exactly when the organizer is a user and every value fits its column; the row gets a fresh id of at least 1; on failure nothing changes |
| Store.Database.ReplaceEvent | EventZenBackend/Controllers/EventsController.cs:114 | writes the row exactly when every value fits its column; otherwise nothing changes |
| Store.Database.RemoveEvent | EventZenBackend/Data/ApplicationDbContext.cs:25-29 | removes the event and, by the cascade, exactly its attendees, keeping the invariant |
| Store.Database.AddAttendee | EventZenBackend/Data/ApplicationDbContext.cs:25-29 | succeeds exactly when the attendee's event exists and the name fits its column; the row gets a fresh id; on failure nothing changes; only a non-blank name and a valid phone are ever stored |
| Store.Database.ReplaceAttendee | EventZenBackend/Controllers/AttendeesController.cs:180 | writes back exactly that row and keeps the invariant |
| Store.Database.RemoveAttendee | EventZenBackend/Controllers/AttendeesController.cs:214-215 | removes exactly that row and keeps the invariant |
| EventsController.NewEvent | EventZenBackend/Controllers/EventsController.cs:68-79 | defines the row a create stores: the body's six fields, the caller as organizer and both timestamps `now` |
| EventsController.UpdatedEvent | EventZenBackend/Controllers/EventsController.cs:106-112 | defines the row an update writes: the body's six fields and the update time replaced, everything else kept |
| EventsController.GetCurrentUserId | EventZenBackend/Controllers/EventsController.cs:152-155 | the value of the first claim that reads as NameIdentifier, or "" when there is none |
| EventsController.UserExists | EventZenBackend/Controllers/EventsController.cs:157-160 | true exactly when some user has that id |
| EventsController.GetUserEvent | EventZenBackend/Controllers/EventsController.cs:146-150 | finds a stored event exactly when one has that id and the caller as organizer, and returns that row |
| EventsController.GetUserEvents | EventZenBackend/Controllers/EventsController.cs:29-38 | unauthorized without a valid token (`[Authorize]`, line 15); otherwise Ok with exactly the caller's stored events, each once, latest start first |
| EventsController.GetEvent | EventZenBackend/Controllers/EventsController.cs:42-53 | unauthorized without a valid token (`[Authorize]`, line 15); then a non-positive id is a bad request; otherwise Ok with the row exactly when the caller organises an event with that id, and not found otherwise |
| EventsController.CreateEvent | EventZenBackend/Controllers/EventsController.cs:57-90 | unauthorized, with nothing changed, without a valid token (`[Authorize]`, line 15); then bad request for an invalid body, then unauthorized for a caller who is not a user; otherwise created exactly when the values fit their columns, and a storage failure (500) when they do not, with a fresh id, the caller as organizer, every field from the body and both timestamps `now`; the caller then finds it; on failure nothing changes |
| EventsController.UpdateEvent | EventZenBackend/Controllers/EventsController.cs:94-122 | unauthorized without a valid token (`[Authorize]`, line 15); then bad request, then not found for an event the caller does not organise; otherwise Ok exactly when the values fit, and a storage failure (500) when they do not; the six body fields and the update time change, while id, organizer and creation time are kept; on failure nothing changes |
| EventsController.DeleteEvent | EventZenBackend/Controllers/EventsController.cs:126-143 | unauthorized, with nothing changed, without a valid token (`[Authorize]`, line 15); then not found, with nothing changed, unless the caller organises the event; otherwise the event and exactly its attendees are removed; afterwards the caller does not find it |
| AttendeesController.NewAttendee | EventZenBackend/Controllers/AttendeesController.cs:122-130 | defines the row a registration stores: the name trimmed, the e-mail lower-cased and trimmed, the phone trimmed, the event id and both timestamps `now` |
| AttendeesController.UpdatedAttendee | EventZenBackend/Controllers/AttendeesController.cs:175-178 | defines the row an update writes: name, e-mail and phone normalised as on registration and the update time replaced, everything else kept |
| AttendeesController.IsUserEventOrganizer | EventZenBackend/Controllers/AttendeesController.cs:226-231 | true exactly when the caller is signed in and organises an event with that id |
| AttendeesController.GetEventAttendees | EventZenBackend/Controllers/AttendeesController.cs:33-65 | a non-positive id is a bad request; a caller who does not organise the event is forbidden; the organizer gets exactly the event's attendees, each once |
| AttendeesController.GetAttendee | EventZenBackend/Controllers/AttendeesController.cs:72-99 | not found before forbidden; the organizer gets the stored row |
| AttendeesController.CreateAttendee | EventZenBackend/Controllers/AttendeesController.cs:105-153 | bad request for an invalid body; otherwise created exactly when the event exists, and a storage failure (500) when it does not, whoever the caller is, with the name trimmed, the e-mail normalised, the phone trimmed and a fresh id; the stored name is non-blank and fits its column and the stored phone passes `[Phone]`; on failure nothing changes |
| AttendeesController.UpdateAttendee | EventZenBackend/Controllers/AttendeesController.cs:159-192 | bad request, then not found, then forbidden for an existing attendee whose event the caller does not organise; otherwise only name, e-mail, phone and update time change, and the stored name is non-blank and the phone passes `[Phone]` |
| AttendeesController.DeleteAttendee | EventZenBackend/Controllers/AttendeesController.cs:198-224 | not found, then forbidden for an existing attendee whose event the caller does not organise; otherwise exactly that row is removed |
| AuthController.FindByEmail | EventZenBackend/Controllers/AuthController.cs:30 | finds a user exactly when one has the e-mail, compared case-insensitively, and returns that stored user |
| AuthController.CredentialsMissing | EventZenBackend/Controllers/AuthController.cs:27-28 | defines a body without credentials: a blank e-mail or a blank password |
| AuthController.NewUser | EventZenBackend/Controllers/AuthController.cs:34-41 | defines the user a registration creates: the e-mail as e-mail and user name, a missing name as "" and the hashed password |
| AuthController.AuthClaims | EventZenBackend/Controllers/AuthController.cs:60-66 | defines the claims of a token: sub, e-mail, jti and NameIdentifier, with the user's id in sub and NameIdentifier |
| AuthController.Register | EventZenBackend/Controllers/AuthController.cs:25-48 | a blank e-mail or password, or an e-mail already taken, is a bad request, and so is a user the identity library's validators refuse; otherwise Ok exactly when the identity library accepts the user and its values fit their columns; an accepted user with a value too long for its column is a storage failure (500); the stored user has the e-mail as user name, "" for a missing name and the hashed password; otherwise nothing changes |
| AuthController.Login | EventZenBackend/Controllers/AuthController.cs:51-86 | a blank e-mail or password is a bad request; Ok exactly when a user has the e-mail and the password checks, unauthorized otherwise; the token expires three hours after `now`, its sub and NameIdentifier claims carry the user's id, and the events API reads that id back from it |
| Dashboard.Where | eventzen-frontend/src/pages/Dashboard.jsx:53 | keeps exactly the accepted elements, in their order |
| Dashboard.WhereKeepsAll | eventzen-frontend/src/pages/Dashboard.jsx:58 | a filter that accepts everything returns the list unchanged |
| Dashboard.Shown | eventzen-frontend/src/pages/Dashboard.jsx:54-58 | defines whether a card is shown: "upcoming" shows a start at or after `now`, "past" a start before it, anything else every card |
| Dashboard.FilteredEvents | eventzen-frontend/src/pages/Dashboard.jsx:53-59 | "upcoming" shows exactly the events starting at or after `now`, "past" exactly those starting before it, and any other value every event; the order is kept |
| Dashboard.WhereSplits | eventzen-frontend/src/pages/Dashboard.jsx:56-57 | two complementary filters split a list: each element lands in exactly one part |
| Dashboard.UpcomingAndPastPartition | eventzen-frontend/src/pages/Dashboard.jsx:56-57 | "upcoming" and "past" share no event and together hold every event, counted with multiplicity |
| Dashboard.AfterDelete | eventzen-frontend/src/pages/Dashboard.jsx:46 | removes exactly the events with that id and keeps the rest in order; a missing id changes nothing |
| Dashboard.WhereCommutes | eventzen-frontend/src/pages/Dashboard.jsx:46 | two filters applied in either order give the same list |
| Dashboard.DeleteThenFilter | eventzen-frontend/src/pages/Dashboard.jsx:46 | the filtered view after a delete is the old filtered view without that event |
| Dashboard.AfterDeleteIdempotent | eventzen-frontend/src/pages/Dashboard.jsx:46 | deleting the same event twice leaves what the first delete left |
| Dashboard.DashboardState.constructor | eventzen-frontend/src/pages/Dashboard.jsx:12-15 | the page starts on filter "all" with the fetched events |
| Dashboard.DashboardState.Visible | eventzen-frontend/src/pages/Dashboard.jsx:53-59 | the page lists the stored events, filtered and in their order |
| Dashboard.DashboardState.SetFilter | eventzen-frontend/src/pages/Dashboard.jsx:84-103 | a filter button changes the filter and nothing else |
| Dashboard.DashboardState.HandleDelete | eventzen-frontend/src/pages/Dashboard.jsx:38-51 | the list changes only after a confirmed delete that succeeded, and then no event with that id remains and the others stay in order |

## Left out

- Asynchrony, logging, and the generic `catch (Exception)` branches that turn unexpected failures into 500. The only failures modelled are the store refusing a write (`StorageFailure`).
- AttendeesController.UpdateAttendee: the 409 answer to a concurrency conflict is not modelled. Requests run one at a time here, so no conflict can arise.
- The response projections (`EventResponseDto`, `AttendeeResponseDto`, the anonymous login body) return the stored rows themselves. The projections drop the organizer id, and for attendees the update time, and are otherwise the same fields.
- The source reads `DateTime.UtcNow` once per timestamp. The model takes one `now` for the whole request, so `createdAt == updatedAt` on creation. `DateTime.SpecifyKind`, time zones and the `DateTime.Now` used for the token's expiry are not modelled.
- Decimal rounding: a budget is already a whole number of hundredths.
- Text.Lower: `ToLower` is culture-sensitive and maps non-ASCII letters. Only ASCII letters change here. The same holds for the identity library's upper-casing (Text.Upper).
- Lengths count characters, not UTF-16 code units.
- Store.Database.AddUser: the 256-character limits on the e-mail and user name come from the identity library's default schema, which is not part of this repository; the normalised copies and the other identity columns are not modelled.
- Models.ValidPhone: `[Phone]` also accepts extension suffixes ("x123", "ext."), which are not modelled. Its digits are those of `char.IsDigit`, every Unicode decimal digit; only '0' to '9' count here.
- Models.ValidEmail: the framework's own corner cases of `[EmailAddress]` are not modelled beyond "one '@', neither first nor last".
- AuthController.Register: the user id is a new GUID. The model takes it as a parameter and requires that no user has it yet. The identity library's password and user validators are one opaque predicate (`Libraries.createSucceeds`), and the security stamp is not modelled.
- AuthController.Login: token serialisation and the HMAC-SHA256 signature are an opaque function (`Libraries.sign`). Token validation on later requests is not modelled: an events action takes whether the request carried a valid token (`authenticated`) and the caller id read from it; the attendees actions take the caller id. A validated token without a NameIdentifier claim gives the id "", which owns nothing. The missing-key throw is unreachable because startup refuses to run without a key.
- Dashboard.FilteredEvents: the page builds a new `Date` for every event and parses the start date text. The model uses one `now` for the whole list and whole-second start dates. Unparsable dates (NaN) are not modelled.
- Dashboard.DashboardState.HandleDelete: the confirm dialog and the HTTP request enter as two booleans. Toasts, fetching, loading and error state are not modelled.
- Program.cs (dependency injection, CORS, Swagger and the JWT middleware), the other frontend pages and services, and test.py are not part of this model.
