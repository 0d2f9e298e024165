/** Trips: creation, listing with a preview of expenses and participants,
    lookup, partial update, and deletion cascading to expenses and links. */
module TripService {
  import opened Wrappers
  import opened Text
  import opened Store
  import opened IdOrder

  /** How many expenses and participants a listed trip previews. */
  const PreviewSize: nat := 5

  function NotFoundMessage(id: int): string {
    "Trip with ID " + IntToDecimal(id) + " not found"
  }

  /** A trip with all its expenses and all its links, as `findOne` returns it. */
  datatype TripDetail = TripDetail(tripId: int, trip: Trip, expenses: map<int, Expense>, links: set<Link>)

  /** A trip as `findAll` lists it: the ids of its newest expenses (newest
      first) and of its first participants (ascending id). */
  datatype TripSummary = TripSummary(tripId: int, trip: Trip, expenses: seq<int>, participants: seq<int>)

  /** `create`: a new trip under the next trip id; an absent end date stays
      unset. */
  function Create(db: Db, destination: string, description: Option<string>,
                  startDate: int, endDate: Option<int>): (r: (Db, int))
    ensures var (db', id) := r;
      && id == db.nextTripId
      && db'.trips == db.trips[id := Trip(destination, description, startDate, endDate)]
      && db'.nextTripId == db.nextTripId + 1
      && db' == db.(trips := db'.trips, nextTripId := db'.nextTripId)
  {
    var id := db.nextTripId;
    (db.(trips := db.trips[id := Trip(destination, description, startDate, endDate)], nextTripId := id + 1), id)
  }

  /** `findOne`: the trip with all its expenses and links, or NotFound. */
  function FindOne(db: Db, id: int): (r: Result<TripDetail>)
    ensures r.Err? <==> id !in db.trips
    ensures r.Err? ==> r.error == NotFound(NotFoundMessage(id))
    ensures r.Ok? ==>
      && r.value.tripId == id && r.value.trip == db.trips[id]
      && (forall k :: k in r.value.expenses <==> k in db.expenses && db.expenses[k].tripId == id)
      && (forall k :: k in r.value.expenses ==> r.value.expenses[k] == db.expenses[k])
      && (forall l :: l in r.value.links <==> l in db.links && l.tripId == id)
  {
    if id !in db.trips then Err(NotFound(NotFoundMessage(id)))
    else
      var ids := ExpensesOf(db, id);
      Ok(TripDetail(id, db.trips[id], map k | k in ids :: db.expenses[k], LinksOfTrip(db, id)))
  }

  /** A created trip is found again, with its given fields, no expenses and
      no participants; the store stays valid. */
  lemma CreateThenFindOne(db: Db, destination: string, description: Option<string>,
                          startDate: int, endDate: Option<int>)
    requires Valid(db)
    ensures var (db', id) := Create(db, destination, description, startDate, endDate);
      && id !in db.trips
      && Valid(db')
      && FindOne(db', id) == Ok(TripDetail(id, Trip(destination, description, startDate, endDate), map[], {}))
  {
    var (db', id) := Create(db, destination, description, startDate, endDate);
    var d := FindOne(db', id).value;
    assert forall k :: k in db'.expenses ==> db'.expenses[k].tripId in db.trips;
    assert d.expenses.Keys == {};
    assert d.expenses == map[];
    assert d.links == {};
  }

  /** `update`: the trip must exist (checked first). The store then writes
      every field the body carries: a given value replaces the stored one, a
      `null` clears the nullable description and end date, and a `null`
      destination or start date is refused by the store. A field left out is
      kept. */
  function Update(db: Db, id: int, destination: Patch<string>, description: Patch<string>,
                  startDate: Patch<int>, endDate: Patch<int>): (r: Result<Db>)
    ensures r.Err? <==> id !in db.trips || destination.Null? || startDate.Null?
    ensures id !in db.trips ==> r == Err(NotFound(NotFoundMessage(id)))
    ensures id in db.trips && destination.Null? ==> r == Err(StoreFault(NullColumnMessage("destination")))
    ensures id in db.trips && !destination.Null? && startDate.Null? ==>
      r == Err(StoreFault(NullColumnMessage("start_date")))
    ensures r.Ok? ==> r.value.trips.Keys == db.trips.Keys
    ensures r.Ok? ==>
      var before := db.trips[id];
      var after := r.value.trips[id];
      && (destination.Given? ==> after.destination == destination.value)
      && (destination.Absent? ==> after.destination == before.destination)
      && (startDate.Given? ==> after.startDate == startDate.value)
      && (startDate.Absent? ==> after.startDate == before.startDate)
      && (description.Given? ==> after.description == Some(description.value))
      && (description.Null? ==> after.description.None?)
      && (description.Absent? ==> after.description == before.description)
      && (endDate.Given? ==> after.endDate == Some(endDate.value))
      && (endDate.Null? ==> after.endDate.None?)
      && (endDate.Absent? ==> after.endDate == before.endDate)
      && (forall k :: k in db.trips && k != id ==> r.value.trips[k] == db.trips[k])
      && r.value == db.(trips := r.value.trips)
  {
    if id !in db.trips then Err(NotFound(NotFoundMessage(id)))
    else if destination.Null? then Err(StoreFault(NullColumnMessage("destination")))
    else if startDate.Null? then Err(StoreFault(NullColumnMessage("start_date")))
    else
      var t := db.trips[id];
      var t' := Trip(destination.Required(t.destination), description.Nullable(t.description),
                     startDate.Required(t.startDate), endDate.Nullable(t.endDate));
      Ok(db.(trips := db.trips[id := t']))
  }

  /** Updating with every field left out changes nothing. */
  lemma EmptyUpdateIsIdentity(db: Db, id: int)
    requires id in db.trips
    ensures Update(db, id, Absent, Absent, Absent, Absent) == Ok(db)
  {
    assert db.trips[id := db.trips[id]] == db.trips;
  }

  /** A `null` clears the optional fields: after such an update the trip has
      no description and no end date, whatever it held before. */
  lemma NullClearsOptionalFields(db: Db, id: int)
    requires id in db.trips
    ensures var r := Update(db, id, Absent, Null, Absent, Null);
      && r.Ok?
      && FindOne(r.value, id).Ok?
      && FindOne(r.value, id).value.trip == db.trips[id].(description := None, endDate := None)
  {
  }

  /** `remove`: delete an existing trip together with all its expenses and
      all its links (three store calls in the source, one step here). */
  function Remove(db: Db, id: int): (r: Result<Db>)
    ensures r.Err? <==> id !in db.trips
    ensures r.Err? ==> r.error == NotFound(NotFoundMessage(id))
    ensures r.Ok? ==>
      && r.value.trips == db.trips - {id}
      && (forall k :: k in r.value.expenses <==> k in db.expenses && db.expenses[k].tripId != id)
      && (forall k :: k in r.value.expenses ==> r.value.expenses[k] == db.expenses[k])
      && (forall l :: l in r.value.links <==> l in db.links && l.tripId != id)
      && r.value == db.(trips := r.value.trips, expenses := r.value.expenses, links := r.value.links)
  {
    if id !in db.trips then Err(NotFound(NotFoundMessage(id)))
    else
      var expenses := db.expenses - ExpensesOf(db, id);
      var links := db.links - LinksOfTrip(db, id);
      Ok(db.(trips := db.trips - {id}, expenses := expenses, links := links))
  }

  /** The cascade keeps the store valid: after the delete nothing refers to
      the deleted trip. Create and update keep it valid too. */
  lemma OperationsPreserveValid(db: Db, id: int, destination: Patch<string>, description: Patch<string>,
                                startDate: Patch<int>, endDate: Patch<int>)
    requires Valid(db)
    ensures Remove(db, id).Ok? ==>
      var db' := Remove(db, id).value;
      && Valid(db')
      && (forall k :: k in db'.expenses ==> db'.expenses[k].tripId != id)
      && (forall l :: l in db'.links ==> l.tripId != id)
    ensures Update(db, id, destination, description, startDate, endDate).Ok? ==>
      Valid(Update(db, id, destination, description, startDate, endDate).value)
  {
  }

  /** Without the cascade the delete would break the store: a trip with an
      expense, deleted alone, leaves that expense dangling. */
  lemma CascadeIsNeeded(db: Db, id: int, e: int)
    requires Valid(db)
    requires e in db.expenses && db.expenses[e].tripId == id
    ensures !ReferentialIntegrity(db.(trips := db.trips - {id}))
  {
  }

  /** One row of the listing. */
  function Summary(db: Db, id: int): (s: TripSummary)
    requires id in db.trips
    ensures s.tripId == id && s.trip == db.trips[id]
    ensures |s.expenses| <= PreviewSize && |s.participants| <= PreviewSize
    ensures forall i, j :: 0 <= i < j < |s.expenses| ==> s.expenses[i] > s.expenses[j]
    ensures forall i, j :: 0 <= i < j < |s.participants| ==> s.participants[i] < s.participants[j]
    ensures forall k :: k in s.expenses ==> k in db.expenses && db.expenses[k].tripId == id
    ensures forall p :: p in s.participants ==> Link(id, p) in db.links
  {
    var expenses := Descending(ExpensesOf(db, id), db.nextExpenseId);
    var linked := set l | l in LinksOfTrip(db, id) :: l.participantId;
    var participants := Ascending(linked, db.nextParticipantId);
    var s := TripSummary(id, db.trips[id], Take(expenses, PreviewSize), Take(participants, PreviewSize));
    assert forall k :: k in s.expenses ==> k in expenses;
    assert forall p :: p in s.participants ==> p in participants;
    s
  }

  /** `findAll`: every trip, newest first, each with its preview. */
  function FindAll(db: Db): (r: seq<TripSummary>)
    ensures forall i, j :: 0 <= i < j < |r| ==> r[i].tripId > r[j].tripId
    ensures forall i :: 0 <= i < |r| ==> r[i].tripId in db.trips
    ensures forall i :: 0 <= i < |r| ==> r[i] == Summary(db, r[i].tripId)
  {
    var ids := Descending(db.trips.Keys, db.nextTripId);
    assert forall i :: 0 <= i < |ids| ==> ids[i] in ids;
    seq(|ids|, i requires 0 <= i < |ids| => Summary(db, ids[i]))
  }

  /** An expense of the trip left out of its preview is older than every
      expense shown, and was left out only because five are shown. */
  lemma SummaryShowsNewestExpenses(db: Db, id: int, k: int)
    requires Valid(db) && id in db.trips
    requires k in ExpensesOf(db, id) && k !in Summary(db, id).expenses
    ensures |Summary(db, id).expenses| == PreviewSize
    ensures forall y :: y in Summary(db, id).expenses ==> y > k
  {
    var expenses := Descending(ExpensesOf(db, id), db.nextExpenseId);
    assert k in expenses;
    TakeDescendingKeepsLargest(expenses, PreviewSize, k);
  }

  /** A participant linked to the trip but left out of its preview has a
      larger id than every one shown, and five are shown. */
  lemma SummaryShowsSmallestParticipants(db: Db, id: int, p: int)
    requires Valid(db) && id in db.trips
    requires Link(id, p) in db.links && p !in Summary(db, id).participants
    ensures |Summary(db, id).participants| == PreviewSize
    ensures forall y :: y in Summary(db, id).participants ==> y < p
  {
    var linked := set l | l in LinksOfTrip(db, id) :: l.participantId;
    assert Link(id, p) in LinksOfTrip(db, id);
    assert p in linked;
    var participants := Ascending(linked, db.nextParticipantId);
    TakeAscendingKeepsSmallest(participants, PreviewSize, p);
  }

  /** In a valid store the listing holds every trip, and each preview is the
      right one (the two lemmas above, for every listed trip). */
  lemma FindAllIsCompleteAndTopFive(db: Db)
    requires Valid(db)
    ensures forall id :: id in db.trips <==> exists i :: 0 <= i < |FindAll(db)| && FindAll(db)[i].tripId == id
    ensures forall i, k :: 0 <= i < |FindAll(db)| && k in ExpensesOf(db, FindAll(db)[i].tripId) && k !in FindAll(db)[i].expenses ==>
      |FindAll(db)[i].expenses| == PreviewSize && forall y :: y in FindAll(db)[i].expenses ==> y > k
    ensures forall i, p :: 0 <= i < |FindAll(db)| && Link(FindAll(db)[i].tripId, p) in db.links && p !in FindAll(db)[i].participants ==>
      |FindAll(db)[i].participants| == PreviewSize && forall y :: y in FindAll(db)[i].participants ==> y < p
  {
    var r := FindAll(db);
    var ids := Descending(db.trips.Keys, db.nextTripId);
    assert |r| == |ids|;
    forall id | id in db.trips
      ensures exists i :: 0 <= i < |r| && r[i].tripId == id
    {
      var i :| 0 <= i < |ids| && ids[i] == id;
      assert r[i].tripId == id;
    }
    forall i, k | 0 <= i < |r| && k in ExpensesOf(db, r[i].tripId) && k !in r[i].expenses
      ensures |r[i].expenses| == PreviewSize && forall y :: y in r[i].expenses ==> y > k
    {
      SummaryShowsNewestExpenses(db, r[i].tripId, k);
    }
    forall i, p | 0 <= i < |r| && Link(r[i].tripId, p) in db.links && p !in r[i].participants
      ensures |r[i].participants| == PreviewSize && forall y :: y in r[i].participants ==> y < p
    {
      SummaryShowsSmallestParticipants(db, r[i].tripId, p);
    }
  }
}
