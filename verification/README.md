# Holiday-trip expenses backend: the decision layer, in Dafny

This project models the decision layer of a NestJS backend for planning
holiday trips. Users sign up and sign in with bearer tokens. They record trips,
the expenses of each trip and the participants who go, and link participants
to trips. Exchange rates against PLN are kept per currency, and payments in a
foreign currency are converted to PLN.

The model keeps the service logic: which check runs first, which error comes
back with which message, and what each write does to the data. It replaces
the relational store with one immutable value, `Store.Db`. That value holds a
map per table, a set of trip–participant pairs and one auto-increment counter
per table.

Every operation is a pure function. It maps a store and its arguments to a
`Wrappers.Result`. An error carries no store, so a failed call never changes
anything. A successful write returns the new store.

Error kinds mirror the HTTP exceptions the services throw: BadRequest,
Unauthorized, Forbidden, NotFound and Conflict. StoreFault stands for a
failure the store raises itself: a uniqueness violation, a `null` for a
required column, or an update of a row that does not exist.

The store invariant `Store.Valid` has two parts:
- `WellKeyed`: unique keys agree with the rows they index, and every id was
  handed out by its counter.
- `ReferentialIntegrity`: every expense belongs to an existing trip, and every
  link joins an existing trip and an existing participant.

Each service's writes are proved to preserve `Valid`.

Modules follow the source layout:
- `Text`: the JavaScript string and number primitives the services use.
- `IdOrder`: ordered listing and `take`.
- `UserMetadataDto`, `RoleGuard`, `UsersService`, `AuthService`.
- `TripService`, `ExpenseService`, `ParticipantService`,
  `TripParticipantsService`.
- `CurrenciesService`, `PaymentsService`.
- `CurrencyCodeValidator`, `EndAfterStartValidator`.

## Model

| member | source | states |
|---|---|---|
| Text.NatToDecimal | src/auth/auth.service.ts:42 | `Date.now().toString()` is a non-empty digit string with no leading zero, and has one digit exactly when the number is below 10 |
| Text.IntToDecimal | src/trip/trip.service.ts:61 | `id.toString()`: a non-negative integer is written as digits only, a negative one as '-' followed by digits |
| Text.ParseNumber | src/auth/auth.service.ts:20-21 | `Number()` on the integer strings the model covers: "" is 0, digits with an optional sign give their value, and every other string is NaN (see Left out) |
| Text.NatToDecimalRoundTrip | src/auth/auth.service.ts:32-33 | `Number()` reads back exactly the issue time that `toString()` wrote into a token |
| Text.ParseNegative | src/auth/auth.service.ts:32 | `Number("-" + digits)` is the negated value of the digits |
| Text.IntToDecimalRoundTrip | src/trip/trip.service.ts:61 | `Number(String(i)) === i` for every integer, negative ones included; this is the decimal form used in the "... with ID n not found" messages |
| Text.DigitsOfNatToDecimal | src/auth/auth.service.ts:42 | the decimal digits written for n have value n (proof by induction) |
| Text.StartsWithSlice | src/auth/auth.service.ts:24-27 | `startsWith(prefix)` holds exactly when the string is the prefix followed by what `slice(prefix.length)` returns |
| Text.Split | src/auth/auth.service.ts:27-28 | `split(":")` gives at least one piece, and no piece holds the separator. Joining the pieces gives back the input, and there is one piece exactly when the input holds no separator |
| Text.SplitAroundSeparator | src/auth/auth.service.ts:27-31 | splitting `a:b`, where neither side holds a colon, gives exactly `[a, b]` |
| Text.ToUpper | src/payments/payments.service.ts:16 | upper-casing keeps the length and maps each character on its own |
| Text.ToUpperIdempotent | src/currencies/currencies.controller.ts:48-50 | upper-casing an already upper-cased code changes nothing |
| IdOrder.Ascending | src/trip/trip.service.ts:38-42 | `orderBy asc`: the listing is strictly increasing and holds exactly the members of the set |
| IdOrder.Descending | src/trip/trip.service.ts:32-36 | `orderBy desc`: the listing is strictly decreasing and holds exactly the members of the set |
| IdOrder.Take | src/trip/trip.service.ts:36 | `take: n` is a prefix of length min(n, len) |
| IdOrder.TakeAscendingKeepsSmallest | src/trip/trip.service.ts:38-43 | a prefix of an ascending listing keeps the n smallest: anything left out is larger than everything kept, and n items were kept |
| IdOrder.TakeDescendingKeepsLargest | src/trip/trip.service.ts:32-37 | a prefix of a descending listing keeps the n largest |
| Store.ExpensesOf | src/trip/trip.service.ts:91-114 | the expenses of one trip, exactly those whose trip id is that trip's |
| Store.LinksOfTrip | src/trip-participants/trip-participants.service.ts:137-153 | the links of one trip, exactly those naming that trip |
| Store.LinksOfParticipant | src/participant/participant.service.ts:67-89 | the links of one participant, exactly those naming that participant |
| UserMetadataDto.UserToMetadata | src/users/dto/user-metadata.dto.ts:9-15 | the metadata carries the user's email, role and id |
| UserMetadataDto.MetadataHidesPrivateFields | src/users/dto/user-metadata.dto.ts:3-15 | the metadata does not depend on the password hash, the enabled flag, the name or the about-me text |
| RoleGuard.CanActivate | src/auth/roles/role.guard.ts:13-24 | an empty role list admits everyone, even an anonymous request. Otherwise an absent caller is refused, and a present caller is admitted exactly when their role is listed |
| RoleGuard.WideningAdmitsMore | src/auth/roles/role.guard.ts:13-24 | for a non-empty role list, adding roles never turns an admission into a refusal |
| RoleGuard.EmptyRequirementIsNotWidened | src/auth/roles/role.guard.ts:17-19 | the empty list admits a USER that `[ADMIN]` refuses, so widening is monotone only from non-empty lists |
| RoleGuard.AdminOnlyRoute | src/users/users.controller.ts:77-79 | the enable and disable routes (`@Roles(Role.ADMIN)`) admit exactly the ADMIN callers |
| UsersService.FindOne | src/users/users.service.ts:46-48 | the user with that email when one is stored, otherwise none |
| UsersService.FindByEmailOrFail | src/users/users.service.ts:17-25 | the stored user, or NotFound "User not found" exactly when the email is unknown |
| UsersService.FindMetadataOrFail | src/users/users.service.ts:50-52 | the stored user's metadata, or NotFound exactly when the email is unknown |
| UsersService.MergeUser | src/users/users.service.ts:27-32 | an `update` keyed by the row's own email: it succeeds exactly when that email is stored, replaces that row and leaves every other account as it was; a missing row is the store's "record not found" fault |
| UsersService.DisableAccount | src/users/users.service.ts:34-38 | an unknown email is NotFound; on success the account found is written back disabled, and in a well-keyed store success is exactly a stored email |
| UsersService.EnableAccount | src/users/users.service.ts:40-44 | an unknown email is NotFound; on success the account found is written back enabled, and in a well-keyed store success is exactly a stored email |
| UsersService.SetEnabledEffect | src/users/users.service.ts:27-44 | disable and enable succeed exactly for a stored email and set that one account's flag, changing nothing else; an unknown email is NotFound |
| UsersService.SetEnabledPreservesValid | src/users/users.service.ts:34-44 | enable and disable keep a valid store valid |
| UsersService.SetEnabledIdempotent | src/users/users.service.ts:34-44 | disabling or enabling twice gives the store one call gives |
| UsersService.EnableUndoesDisable | src/users/users.service.ts:34-44 | re-enabling a disabled account gives back the store it was disabled from |
| UsersService.UpdateUserData | src/users/users.service.ts:54-84 | a non-ADMIN naming a target (even `null`) is Forbidden, and an ADMIN naming `null` is refused by the store lookup. An unknown edited email (the caller's own, or the target) is NotFound, and in a well-keyed store the update succeeds exactly when that email is stored |
| UsersService.UpdateOtherNeedsAdmin | src/users/users.service.ts:61-71 | a non-ADMIN naming a target email is Forbidden, whether or not the target exists |
| UsersService.UpdateUserDataEffect | src/users/users.service.ts:54-84 | the caller's own record, or the ADMIN's target, is edited: a given name or about-me replaces the stored one, `null` clears it, and one left out is kept. Nothing else changes, and the answer is the record's new name and about-me. An unknown email is NotFound |
| UsersService.UpdateUserDataPreservesValid | src/users/users.service.ts:54-84 | a profile update, whatever its caller, target and fields, keeps a valid store valid |
| UsersService.Create | src/users/users.service.ts:86-107 | creation succeeds exactly when the email is free, and adds exactly that account; a taken email is the store's uniqueness fault |
| UsersService.CreateEffect | src/users/users.service.ts:86-107 | a new account is an enabled USER with the given fields under the next user id. No other account changes and the store stays valid. A taken email is the store's uniqueness fault |
| AuthService.ExpiryTimeMs | src/auth/auth.service.ts:20-21 | `Number(setting) \|\| 3_600_000`: never 0. An unset, empty, zero or non-numeric setting gives one hour; any other number is used as it is |
| AuthService.GenerateToken | src/auth/auth.service.ts:41-45 | every issued token starts with the `token_` prefix |
| AuthService.GeneratedTokenParts | src/auth/auth.service.ts:41-45 | after the prefix, a generated token splits on ':' into exactly the issue time and the encoded email |
| AuthService.ValidateToken | src/auth/auth.service.ts:23-39 | every rejection is Unauthorized, including a store lookup failure |
| AuthService.TokenRoundTrip | src/auth/auth.service.ts:23-45 | a token issued at t validates to the stored user's metadata while now − t ≤ window (boundary included); an unknown email gives "User not found". Once now − t > window the answer is "Token expired" |
| AuthService.PrefixCheckedFirst | src/auth/auth.service.ts:24-26 | a token without the prefix is "Invalid token format", whatever the store and the clock |
| AuthService.OneColonRequired | src/auth/auth.service.ts:27-30 | after the prefix, anything other than exactly two ':'-separated pieces is "Invalid token format" |
| AuthService.NaNIssueTimeNeverExpires | src/auth/auth.service.ts:31-38 | a non-numeric issue time is NaN, which never compares as expired, so such a token is judged by its email alone at any time |
| AuthService.ValidatedCallerIsStored | src/auth/auth.service.ts:35-38 | a validated token always yields the metadata of a stored user |
| AuthService.SignIn | src/auth/auth.service.ts:47-60 | sign-in succeeds exactly when the email is stored, the account is enabled and the password matches the hash. Every failure is the same Unauthorized message, and success returns a token for the stored email |
| AuthService.SignInTokenValidates | src/auth/auth.service.ts:23-60 | the token a successful sign-in returns validates, within the window, to the signed-in user |
| AuthService.Register | src/auth/auth.service.ts:62-79 | registration fails exactly when the email is taken, and then with Conflict "User already exists" |
| AuthService.RegisterEffect | src/auth/auth.service.ts:62-79 | registration adds exactly one enabled USER account holding hash(password), changes nothing else and keeps the store valid. It returns a token that validates to the new account |
| TripService.Create | src/trip/trip.service.ts:11-27 | a new trip with the given fields under the next trip id; nothing else changes |
| TripService.FindOne | src/trip/trip.service.ts:51-65 | the trip with exactly its expenses and exactly its links, or NotFound "Trip with ID n not found" exactly when the id is unknown |
| TripService.CreateThenFindOne | src/trip/trip.service.ts:11-65 | a created trip is found again with its fields, no expenses and no participants, under an id no earlier trip had, and the store stays valid |
| TripService.Update | src/trip/trip.service.ts:67-89 | NotFound for an unknown id, checked first. Otherwise a given field replaces the stored one and a field left out is kept. `null` clears the description or end date, while a `null` destination or start date is refused by the store. Other trips are unchanged |
| TripService.EmptyUpdateIsIdentity | src/trip/trip.service.ts:67-89 | an update with no field given changes nothing |
| TripService.NullClearsOptionalFields | src/trip/trip.service.ts:76-83 | an update with `null` description and end date leaves the trip with neither, and everything else as before |
| TripService.Remove | src/trip/trip.service.ts:91-114 | deleting an existing trip deletes exactly its expenses and its links, and nothing else. An unknown id is NotFound |
| TripService.OperationsPreserveValid | src/trip/trip.service.ts:67-114 | update and the cascading delete keep the store valid; after the delete nothing refers to the trip |
| TripService.CascadeIsNeeded | src/trip/trip.service.ts:98-107 | deleting a trip that has an expense without also deleting its expenses would break referential integrity |
| TripService.Summary | src/trip/trip.service.ts:29-44 | a listed trip previews at most 5 of its expenses, newest first, and at most 5 of its participants, by ascending participant id |
| TripService.FindAll | src/trip/trip.service.ts:29-49 | the listing is newest trip first, and each row is that trip's summary |
| TripService.SummaryShowsNewestExpenses | src/trip/trip.service.ts:32-37 | an expense of a trip missing from its preview is older than every expense shown, and exactly 5 are shown |
| TripService.SummaryShowsSmallestParticipants | src/trip/trip.service.ts:38-43 | a participant linked to a trip but missing from its preview has a larger id than every one shown, and exactly 5 are shown |
| TripService.FindAllIsCompleteAndTopFive | src/trip/trip.service.ts:29-49 | every trip is listed. An expense or participant missing from a preview means the preview is full (5) and holds only newer expenses, or participants with smaller ids |
| ExpenseService.Create | src/expense/expense.service.ts:11-37 | an expense of an existing trip under the next expense id; an unknown trip is NotFound "Trip with ID n not found" |
| ExpenseService.FindOne | src/expense/expense.service.ts:54-71 | the expense, or NotFound exactly when the id is unknown |
| ExpenseService.Update | src/expense/expense.service.ts:73-116 | the expense is checked first, then a trip id that is neither missing nor `null`. A `null` amount, category or description is refused by the store. Each given field is set, each omitted one kept, and other expenses are unchanged |
| ExpenseService.NullTripIdIsIgnored | src/expense/expense.service.ts:82-106 | a `null` trip id is neither checked nor written: the update behaves as if it were left out |
| ExpenseService.Remove | src/expense/expense.service.ts:118-132 | deletes exactly that expense, or NotFound |
| ExpenseService.CreateRemovePreserveValid | src/expense/expense.service.ts:11-37 | create and remove keep every expense attached to an existing trip |
| ExpenseService.UpdatePreservesValid | src/expense/expense.service.ts:73-105 | moving an expense to another trip is allowed only to an existing trip, so every update keeps the store valid |
| ExpenseService.CreateFindRemove | src/expense/expense.service.ts:11-132 | a created expense is found again with its fields, and removing it gives back the original store apart from the spent id |
| ParticipantService.Create | src/participant/participant.service.ts:11-20 | a new participant with the given fields under the next participant id; nothing else changes |
| ParticipantService.FindOne | src/participant/participant.service.ts:30-42 | the participant, or NotFound exactly when the id is unknown |
| ParticipantService.Update | src/participant/participant.service.ts:44-65 | NotFound for an unknown id, checked first. Otherwise a given field replaces the stored one, a field left out is kept, and `null` clears the phone; a `null` first name, last name or email is refused by the store. Other participants are unchanged |
| ParticipantService.NullClearsPhone | src/participant/participant.service.ts:56-63 | an update with a `null` phone leaves the participant with no phone and every other field as before |
| ParticipantService.Remove | src/participant/participant.service.ts:67-89 | deleting a participant deletes exactly its links, and other participants' links stay |
| ParticipantService.OperationsPreserveValid | src/participant/participant.service.ts:11-89 | create, update and delete keep the store valid; after a delete no link names the participant |
| ParticipantService.CreateFindRemove | src/participant/participant.service.ts:11-89 | a created participant is found again with its fields and has no links. Removing it gives back the original store apart from the spent id |
| TripParticipantsService.Create | src/trip-participants/trip-participants.service.ts:14-44 | NotFound exactly when the trip or the participant is unknown (checked first). Then Conflict exactly when the pair is already linked; otherwise the link is added |
| TripParticipantsService.FindParticipantsOfTrip | src/trip-participants/trip-participants.service.ts:50-70 | exactly the links of an existing trip, or NotFound |
| TripParticipantsService.FindTripsByParticipant | src/trip-participants/trip-participants.service.ts:72-92 | exactly the links of an existing participant, or NotFound |
| TripParticipantsService.Remove | src/trip-participants/trip-participants.service.ts:94-117 | deletes exactly the one existing pair, or NotFound |
| TripParticipantsService.RemoveParticipantFromAllTrips | src/trip-participants/trip-participants.service.ts:119-135 | deletes exactly the links of an existing participant, or NotFound |
| TripParticipantsService.RemoveAllParticipantsFromTrip | src/trip-participants/trip-participants.service.ts:137-153 | deletes exactly the links of an existing trip, or NotFound |
| TripParticipantsService.OperationsPreserveValid | src/trip-participants/trip-participants.service.ts:14-153 | every write to the join table keeps the store valid |
| TripParticipantsService.RemoveUndoesCreate | src/trip-participants/trip-participants.service.ts:14-117 | removing a pair right after linking it gives back the original store |
| TripParticipantsService.CreatedLinkIsVisible | src/trip-participants/trip-participants.service.ts:14-92 | a new link is listed both among the trip's participants and among the participant's trips |
| CurrenciesService.UpsertCurrency | src/currencies/currencies.service.ts:13-25 | BadRequest exactly when the code is not three capital letters. A known code gets the new rate and keeps its id; an unknown one is added under the next currency id |
| CurrenciesService.GetOne | src/currencies/currencies.service.ts:31-41 | the stored currency, or NotFound exactly when the code is unknown |
| CurrenciesService.UpsertIdempotent | src/currencies/currencies.service.ts:13-25 | upserting the same code and rate twice leaves the store the first upsert left |
| CurrenciesService.UpsertThenGetOne | src/currencies/currencies.service.ts:13-41 | after an upsert the code reads back with the new rate. Every other code is untouched and the store stays valid |
| CurrenciesService.LowerCaseRejected | src/currencies/currencies.service.ts:13-19 | any code holding a lower-case letter, such as "usd", is refused: the upsert does not upper-case for its caller |
| PaymentsService.CreatePayment | src/payments/payments.service.ts:14-32 | an unknown upper-cased code is BadRequest "Unsupported currency". Otherwise the payment records the amount, the currency id and amount × rate under the next payment id, and nothing else changes |
| PaymentsService.GetOne | src/payments/payments.service.ts:38-50 | the payment, or NotFound exactly when the id is unknown |
| PaymentsService.CodeCaseIgnored | src/payments/payments.service.ts:15-17 | a payment in "usd" is the payment in "USD" |
| PaymentsService.CreateThenGetOne | src/payments/payments.service.ts:14-50 | a created payment reads back with its amount and amountPln = amount × rate, under a fresh id, and the store stays valid |
| CurrencyCodeValidator.Validate | src/validators/is-valid-currency-code.validator.ts:7-18 | only a three-character code can be accepted |
| CurrencyCodeValidator.CaseInsensitive | src/validators/is-valid-currency-code.validator.ts:14-18 | acceptance ignores case |
| CurrencyCodeValidator.ListedCodesAccepted | src/validators/is-valid-currency-code.validator.ts:7 | the six listed codes are accepted in any case, e.g. "usd" and "Chf" |
| CurrencyCodeValidator.OthersRejected | src/validators/is-valid-currency-code.validator.ts:7-18 | codes of any other length are refused, and a code of three capital letters is accepted exactly when it is one of the six, so every unlisted one (e.g. "SEK") is refused |
| CurrencyCodeValidator.AcceptedCodesHaveUpsertShape | src/currencies/currencies.controller.ts:48-50 | when a validation pipe runs the check, an accepted code, upper-cased as the route does, always passes the upsert's shape check |
| EndAfterStartValidator.Validate | src/validators/end-after-start.validator.ts:9-18 | a missing or empty start or end date passes |
| EndAfterStartValidator.StrictlyAfter | src/validators/end-after-start.validator.spec.ts:34-56 | with both dates present the check passes exactly when the end is strictly later. An end equal to the start fails |
| EndAfterStartValidator.NotBothWays | src/validators/end-after-start.validator.ts:15-17 | two dates never pass in both orders |

## Left out

- The HTTP layer is left out because it only wires the services to routes:
  controllers, modules, Swagger decorators, `main.ts` and the authentication
  guard that reads the `Authorization` header. The one routing fact the model
  uses is that the currency route upper-cases the code before the upsert.
- DTO field decorators (`@IsEmail`, `@Min`, `@MaxLength`, ...) are left out
  and are not made preconditions: the services accept whatever reaches them.
  The application registers no validation pipe (src/main.ts, src/app.module.ts),
  so a body field may also arrive as `null`. Partial updates model each field
  as a `Wrappers.Patch`: left out, `null`, or a value.
- The relational store and its client are replaced by `Store.Db`. Includes
  and joins are not returned; results carry ids or rows, not joined objects.
  This covers the trip destination attached to an expense, the participant
  and trip objects attached to a link, and the currency attached to a
  payment.
- `created_at` ordering is modelled as id order. Ids come from one increasing
  sequence per table, so this ordering is the same as creation order.
- Cascading deletes (trip → expenses and links, participant → links) are
  several separate store calls in the source. They are modelled as one step,
  so the state after a partial failure is not modelled.
- The `findAll` / `getAll` listings of expenses, participants, links,
  currencies and payments are left out: each returns the whole table and
  decides nothing.
- The messages of the delete operations are left out; they are returned as
  text on success.
- The currency scraper and its schedule are left out: network I/O and HTML
  parsing.
- `DatabaseService.getTrips` / `createTrip` and the seed script are left out:
  they duplicate the trip service without its checks.
- Clocks, hashing and encoding become parameters. The clock (`Date.now()`) is
  passed as `now`. bcrypt hashing is a `hash` function, and the password
  comparison is a `matches` predicate. Base64 is an abstract
  encoder/decoder pair that is assumed to round-trip and to emit no ':'.
- AuthService.ValidateToken: an issue time such as "1e3", "1.5", " 5",
  "0x10" or "-Infinity" is a number to JavaScript's `Number()`, so such a
  token expires in the source. `Text.ParseNumber` reads these strings as NaN,
  so in the model such a token never expires.
- AuthService.NaNIssueTimeNeverExpires: its precondition
  `ParseNumber(issuedAt).None?` also admits the strings just named. For those
  the lemma says the token never expires, which holds of the model but not of
  the source. It is faithful only for issue times that are NaN in JavaScript
  too, such as "abc".
- Create operations take each required field as a present value. A `null`
  for a required field on create, which the store refuses, is not modelled;
  on update it is modelled as the store's refusal.
- Text.ParseNumber: models `Number()` only on "" and on decimal digits with
  an optional sign, with an exact integer result. JavaScript also reads
  fractions, exponents, hex, surrounding whitespace and "Infinity" as
  numbers; the model reads them as NaN. JavaScript numbers are doubles, so
  `Number("9007199254740993")` is 9007199254740992, and `String(1e21)` is
  "1e+21" rather than digits (Text.NatToDecimal, Text.IntToDecimal). The
  integers the services convert are 32-bit ids and clock values near
  1.7e12, well below 2^53, so no reachable id or issue time is affected.
- TripService.Create: dates are integer instants. The source converts the
  body's date strings with `new Date(...)` before the store sees them, so a
  malformed string becomes an invalid date; that parse is not modelled.
- TripService.Update: dates are integer instants. Unlike `create`, the
  source passes the body's `startDate` and `endDate` strings to the store
  unconverted. The store refuses a string it cannot read as a date-time,
  including the date-only form ("2023-06-01") that `create` accepts. The
  model's `Given(d)` date is always written, so that refusal is not
  modelled.
- AuthService.ExpiryTimeMs: the environment variable is passed as an
  optional string. `Text.ParseNumber` models `Number()` only on an optional
  sign followed by decimal digits, with "" as 0. Fractions, exponents, hex,
  surrounding whitespace and "Infinity" are treated as NaN here, though
  JavaScript reads them as numbers.
- Text.ToUpper: upper-cases ASCII letters only. JavaScript also maps other
  characters (for example 'ß' becomes "SS" and 'ſ' becomes 'S'), which can
  change the length.
- EndAfterStartValidator.Validate: dates are integers (milliseconds), and a
  missing or empty date string is `None`. A malformed date string, which
  gives an invalid `Date` and makes the comparison false, is not modelled.
- UsersService.CreateEffect: `users.create` does not check the email itself.
  A duplicate is the store's unique-constraint failure, modelled as a
  StoreFault error. Registration checks for it first, so it never happens
  there.
- Money is `real`: the store's decimal rounding of amounts and rates is not
  modelled.
- The 403 answers for USER callers and the 401 answers for missing tokens on
  the trip, expense and participant routes are left out. The end-to-end
  tests assert them (test/trip.e2e-spec.ts:89-95,
  test/expense.e2e-spec.ts:90-96, test/participant.e2e-spec.ts:207-213), but
  those controllers attach no guard and participants have no owner. The
  model follows the code: these services perform no authorisation, and the
  role guard appears only on the enable and disable routes
  (src/users/users.controller.ts:77-79 and 100-102).
