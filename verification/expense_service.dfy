/** Expenses: each belongs to an existing trip, checked on create and on an
    update that moves it to another trip. */
module ExpenseService {
  import opened Wrappers
  import opened Text
  import opened Store
  import TripService

  function NotFoundMessage(id: int): string {
    "Expense with ID " + IntToDecimal(id) + " not found"
  }

  /** `create`: an expense of an existing trip, under the next expense id. */
  function Create(db: Db, amount: real, category: Category, description: string, tripId: int): (r: Result<(Db, int)>)
    ensures r.Err? <==> tripId !in db.trips
    ensures r.Err? ==> r.error == NotFound(TripService.NotFoundMessage(tripId))
    ensures r.Ok? ==>
      var (db', id) := r.value;
      && id == db.nextExpenseId
      && db'.expenses == db.expenses[id := Expense(amount, category, description, tripId)]
      && db' == db.(expenses := db'.expenses, nextExpenseId := db.nextExpenseId + 1)
  {
    if tripId !in db.trips then Err(NotFound(TripService.NotFoundMessage(tripId)))
    else
      var id := db.nextExpenseId;
      Ok((db.(expenses := db.expenses[id := Expense(amount, category, description, tripId)],
              nextExpenseId := id + 1), id))
  }

  /** `findOne`: the expense, or NotFound. */
  function FindOne(db: Db, id: int): (r: Result<Expense>)
    ensures r.Err? <==> id !in db.expenses
    ensures r.Err? ==> r.error == NotFound(NotFoundMessage(id))
    ensures r.Ok? ==> r.value == db.expenses[id]
  {
    if id !in db.expenses then Err(NotFound(NotFoundMessage(id)))
    else Ok(db.expenses[id])
  }

  /** `update`: the expense must exist (checked first); a trip id that is
      neither left out nor `null` must name an existing trip. The store then
      writes every other field the body carries: a given value replaces the
      stored one and a `null` amount, category or description is refused by
      the store. A `null` trip id is skipped like a missing one. */
  function Update(db: Db, id: int, amount: Patch<real>, category: Patch<Category>,
                  description: Patch<string>, tripId: Patch<int>): (r: Result<Db>)
    ensures r.Err? <==>
      || id !in db.expenses
      || (tripId.Given? && tripId.value !in db.trips)
      || amount.Null? || category.Null? || description.Null?
    ensures id !in db.expenses ==> r == Err(NotFound(NotFoundMessage(id)))
    ensures id in db.expenses && tripId.Given? && tripId.value !in db.trips ==>
      r == Err(NotFound(TripService.NotFoundMessage(tripId.value)))
    ensures id in db.expenses && !(tripId.Given? && tripId.value !in db.trips) &&
            (amount.Null? || category.Null? || description.Null?) ==>
      r.Err? && r.error.StoreFault?
    ensures r.Ok? ==> r.value.expenses.Keys == db.expenses.Keys
    ensures r.Ok? ==>
      var before := db.expenses[id];
      var after := r.value.expenses[id];
      && (amount.Given? ==> after.amount == amount.value)
      && (amount.Absent? ==> after.amount == before.amount)
      && (category.Given? ==> after.category == category.value)
      && (category.Absent? ==> after.category == before.category)
      && (description.Given? ==> after.description == description.value)
      && (description.Absent? ==> after.description == before.description)
      && (tripId.Given? ==> after.tripId == tripId.value)
      && (!tripId.Given? ==> after.tripId == before.tripId)
      && (forall k :: k in db.expenses && k != id ==> r.value.expenses[k] == db.expenses[k])
      && r.value == db.(expenses := r.value.expenses)
  {
    if id !in db.expenses then Err(NotFound(NotFoundMessage(id)))
    else if tripId.Given? && tripId.value !in db.trips then Err(NotFound(TripService.NotFoundMessage(tripId.value)))
    else if amount.Null? then Err(StoreFault(NullColumnMessage("amount")))
    else if category.Null? then Err(StoreFault(NullColumnMessage("category")))
    else if description.Null? then Err(StoreFault(NullColumnMessage("description")))
    else
      var e := db.expenses[id];
      var e' := Expense(amount.Required(e.amount), category.Required(e.category),
                        description.Required(e.description), tripId.Required(e.tripId));
      Ok(db.(expenses := db.expenses[id := e']))
  }

  /** A `null` trip id behaves exactly like a missing one. */
  lemma NullTripIdIsIgnored(db: Db, id: int, amount: Patch<real>, category: Patch<Category>,
                            description: Patch<string>)
    ensures Update(db, id, amount, category, description, Null)
         == Update(db, id, amount, category, description, Absent)
  {
  }

  /** `remove`: delete an existing expense, and only it. */
  function Remove(db: Db, id: int): (r: Result<Db>)
    ensures r.Err? <==> id !in db.expenses
    ensures r.Err? ==> r.error == NotFound(NotFoundMessage(id))
    ensures r.Ok? ==> r.value.expenses == db.expenses - {id}
    ensures r.Ok? ==> r.value == db.(expenses := r.value.expenses)
  {
    if id !in db.expenses then Err(NotFound(NotFoundMessage(id)))
    else Ok(db.(expenses := db.expenses - {id}))
  }

  /** Create and remove keep every expense attached to an existing trip, and
      the store valid. */
  lemma CreateRemovePreserveValid(db: Db, id: int, amount: real, category: Category, description: string, tripId: int)
    requires Valid(db)
    ensures Create(db, amount, category, description, tripId).Ok? ==>
      Valid(Create(db, amount, category, description, tripId).value.0)
    ensures Remove(db, id).Ok? ==> Valid(Remove(db, id).value)
  {
  }

  /** Every update keeps every expense attached to an existing trip, and the
      store valid, whichever fields it changes. */
  lemma UpdatePreservesValid(db: Db, id: int, amount: Patch<real>, category: Patch<Category>,
                             description: Patch<string>, tripId: Patch<int>)
    requires Valid(db)
    ensures Update(db, id, amount, category, description, tripId).Ok? ==>
      Valid(Update(db, id, amount, category, description, tripId).value)
  {
  }

  /** A created expense is found again with its given fields, and removing it
      gives back the original store, except that its id stays used. */
  lemma CreateFindRemove(db: Db, amount: real, category: Category, description: string, tripId: int)
    requires Valid(db)
    requires tripId in db.trips
    ensures var (db', id) := Create(db, amount, category, description, tripId).value;
      && id !in db.expenses
      && FindOne(db', id) == Ok(Expense(amount, category, description, tripId))
      && Remove(db', id) == Ok(db.(nextExpenseId := db.nextExpenseId + 1))
  {
    var (db', id) := Create(db, amount, category, description, tripId).value;
    assert db'.expenses - {id} == db.expenses;
  }
}
