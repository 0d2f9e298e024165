/** The relational store the services read and write, as one immutable value.

    Each table is a map from its unique key to a row (users by email, currencies
    by code, everything else by an auto-increment id); the trip–participant join
    table, whose key is the pair itself, is a set of links. Each auto-increment
    table keeps the next id it will hand out; ids are handed out in creation
    order, which is how this model orders rows "by created_at".
 */
module Store {
  import opened Wrappers

  datatype Role = ADMIN | COORDINATOR | USER

  /** An account. `password` holds the bcrypt hash, never the password. */
  datatype User = User(
    userId: int,
    email: string,
    password: string,
    role: Role,
    isEnabled: bool,
    name: Option<string>,
    aboutMe: Option<string>)

  /** Dates are instants (milliseconds); `endDate` may be unset. */
  datatype Trip = Trip(
    destination: string,
    description: Option<string>,
    startDate: int,
    endDate: Option<int>)

  /** The name of a member of the store's expense-category enum (FOOD, TRANSPORT, ...). */
  type Category = string

  datatype Expense = Expense(
    amount: real,
    category: Category,
    description: string,
    tripId: int)

  datatype Participant = Participant(
    firstName: string,
    lastName: string,
    email: string,
    phone: Option<string>)

  /** One row of the trip–participant join table; the pair is its key. */
  datatype Link = Link(tripId: int, participantId: int)

  /** An exchange rate against PLN. */
  datatype Currency = Currency(id: int, code: string, rate: real)

  datatype Payment = Payment(amount: real, currencyId: int, amountPln: real)

  datatype Db = Db(
    users: map<string, User>,
    nextUserId: int,
    trips: map<int, Trip>,
    nextTripId: int,
    expenses: map<int, Expense>,
    nextExpenseId: int,
    participants: map<int, Participant>,
    nextParticipantId: int,
    links: set<Link>,
    currencies: map<string, Currency>,
    nextCurrencyId: int,
    payments: map<int, Payment>,
    nextPaymentId: int)

  /** The empty store: every auto-increment sequence starts at 1. */
  const Empty: Db := Db(map[], 1, map[], 1, map[], 1, map[], 1, {}, map[], 1, map[], 1)

  /** Every key of `m` is an id already handed out by a sequence at `next`. */
  ghost predicate IdsBelow<T>(m: map<int, T>, next: int) {
    forall k :: k in m ==> 0 < k < next
  }

  /** Unique keys agree with the rows they index, and every id is one the
      table's sequence has already handed out. */
  ghost predicate WellKeyed(db: Db) {
    && 0 < db.nextUserId && 0 < db.nextTripId && 0 < db.nextExpenseId
    && 0 < db.nextParticipantId && 0 < db.nextCurrencyId && 0 < db.nextPaymentId
    && (forall e :: e in db.users ==> db.users[e].email == e && 0 < db.users[e].userId < db.nextUserId)
    && (forall c :: c in db.currencies ==> db.currencies[c].code == c && 0 < db.currencies[c].id < db.nextCurrencyId)
    && IdsBelow(db.trips, db.nextTripId)
    && IdsBelow(db.expenses, db.nextExpenseId)
    && IdsBelow(db.participants, db.nextParticipantId)
    && IdsBelow(db.payments, db.nextPaymentId)
  }

  /** Every expense belongs to an existing trip, and every link joins an
      existing trip and an existing participant. */
  ghost predicate ReferentialIntegrity(db: Db) {
    && (forall k :: k in db.expenses ==> db.expenses[k].tripId in db.trips)
    && (forall l :: l in db.links ==> l.tripId in db.trips && l.participantId in db.participants)
  }

  ghost predicate Valid(db: Db) {
    WellKeyed(db) && ReferentialIntegrity(db)
  }

  /** The store's refusal of an explicit `null` for a required column. */
  function NullColumnMessage(column: string): string {
    "Argument `" + column + "` must not be null."
  }

  /** The ids of the expenses of one trip. */
  function ExpensesOf(db: Db, tripId: int): (ids: set<int>)
    ensures forall k :: k in ids <==> k in db.expenses && db.expenses[k].tripId == tripId
  {
    set k | k in db.expenses && db.expenses[k].tripId == tripId
  }

  /** The links of one trip. */
  function LinksOfTrip(db: Db, tripId: int): (ls: set<Link>)
    ensures forall l :: l in ls <==> l in db.links && l.tripId == tripId
  {
    set l | l in db.links && l.tripId == tripId
  }

  /** The links of one participant. */
  function LinksOfParticipant(db: Db, participantId: int): (ls: set<Link>)
    ensures forall l :: l in ls <==> l in db.links && l.participantId == participantId
  {
    set l | l in db.links && l.participantId == participantId
  }

  lemma EmptyIsValid()
    ensures Valid(Empty)
  {
  }
}
