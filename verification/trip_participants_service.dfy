/** The trip–participant join table: linking, listing and unlinking. */
module TripParticipantsService {
  import opened Wrappers
  import opened Store

  const BothNotFoundMessage := "Trip or participant not found"
  const LinkExistsMessage := "Trip participant already exists"
  const TripNotFoundMessage := "Trip not found"
  const ParticipantNotFoundMessage := "Participant not found"
  const LinkNotFoundMessage := "Trip participant not found"

  /** `create`: both ends must exist (checked first), then the pair must be
      new; on success exactly that pair is added. */
  function Create(db: Db, tripId: int, participantId: int): (r: Result<(Db, Link)>)
    ensures r.Err? && r.error.NotFound? <==> tripId !in db.trips || participantId !in db.participants
    ensures r.Err? ==> r.error == NotFound(BothNotFoundMessage) || r.error == Conflict(LinkExistsMessage)
    ensures r.Err? && r.error.Conflict? <==>
      tripId in db.trips && participantId in db.participants && Link(tripId, participantId) in db.links
    ensures r.Ok? ==>
      && r.value.1 == Link(tripId, participantId)
      && r.value.1 !in db.links
      && r.value.0.links == db.links + {r.value.1}
      && r.value.0 == db.(links := r.value.0.links)
  {
    if tripId !in db.trips || participantId !in db.participants then Err(NotFound(BothNotFoundMessage))
    else if Link(tripId, participantId) in db.links then Err(Conflict(LinkExistsMessage))
    else
      var l := Link(tripId, participantId);
      Ok((db.(links := db.links + {l}), l))
  }

  /** `findParticipantsOfTrip`: the links of an existing trip. */
  function FindParticipantsOfTrip(db: Db, tripId: int): (r: Result<set<Link>>)
    ensures r.Err? <==> tripId !in db.trips
    ensures r.Err? ==> r.error == NotFound(TripNotFoundMessage)
    ensures r.Ok? ==> forall l :: l in r.value <==> l in db.links && l.tripId == tripId
  {
    if tripId !in db.trips then Err(NotFound(TripNotFoundMessage))
    else Ok(LinksOfTrip(db, tripId))
  }

  /** `findTripsByParticipant`: the links of an existing participant. */
  function FindTripsByParticipant(db: Db, participantId: int): (r: Result<set<Link>>)
    ensures r.Err? <==> participantId !in db.participants
    ensures r.Err? ==> r.error == NotFound(ParticipantNotFoundMessage)
    ensures r.Ok? ==> forall l :: l in r.value <==> l in db.links && l.participantId == participantId
  {
    if participantId !in db.participants then Err(NotFound(ParticipantNotFoundMessage))
    else Ok(LinksOfParticipant(db, participantId))
  }

  /** `remove`: delete one existing pair, and only it. */
  function Remove(db: Db, tripId: int, participantId: int): (r: Result<Db>)
    ensures r.Err? <==> Link(tripId, participantId) !in db.links
    ensures r.Err? ==> r.error == NotFound(LinkNotFoundMessage)
    ensures r.Ok? ==> r.value.links == db.links - {Link(tripId, participantId)}
    ensures r.Ok? ==> r.value == db.(links := r.value.links)
  {
    if Link(tripId, participantId) !in db.links then Err(NotFound(LinkNotFoundMessage))
    else Ok(db.(links := db.links - {Link(tripId, participantId)}))
  }

  /** `removeParticipantFromAllTrips`: delete every link of an existing
      participant, which succeeds also when there are none. */
  function RemoveParticipantFromAllTrips(db: Db, participantId: int): (r: Result<Db>)
    ensures r.Err? <==> participantId !in db.participants
    ensures r.Err? ==> r.error == NotFound(ParticipantNotFoundMessage)
    ensures r.Ok? ==> forall l :: l in r.value.links <==> l in db.links && l.participantId != participantId
    ensures r.Ok? ==> r.value == db.(links := r.value.links)
  {
    if participantId !in db.participants then Err(NotFound(ParticipantNotFoundMessage))
    else Ok(db.(links := db.links - LinksOfParticipant(db, participantId)))
  }

  /** `removeAllParticipantsFromTrip`: delete every link of an existing trip. */
  function RemoveAllParticipantsFromTrip(db: Db, tripId: int): (r: Result<Db>)
    ensures r.Err? <==> tripId !in db.trips
    ensures r.Err? ==> r.error == NotFound(TripNotFoundMessage)
    ensures r.Ok? ==> forall l :: l in r.value.links <==> l in db.links && l.tripId != tripId
    ensures r.Ok? ==> r.value == db.(links := r.value.links)
  {
    if tripId !in db.trips then Err(NotFound(TripNotFoundMessage))
    else Ok(db.(links := db.links - LinksOfTrip(db, tripId)))
  }

  /** Every operation of the join table keeps the store valid. */
  lemma OperationsPreserveValid(db: Db, tripId: int, participantId: int)
    requires Valid(db)
    ensures Create(db, tripId, participantId).Ok? ==> Valid(Create(db, tripId, participantId).value.0)
    ensures Remove(db, tripId, participantId).Ok? ==> Valid(Remove(db, tripId, participantId).value)
    ensures RemoveParticipantFromAllTrips(db, participantId).Ok? ==> Valid(RemoveParticipantFromAllTrips(db, participantId).value)
    ensures RemoveAllParticipantsFromTrip(db, tripId).Ok? ==> Valid(RemoveAllParticipantsFromTrip(db, tripId).value)
  {
  }

  /** Removing a pair right after creating it gives back the original store. */
  lemma RemoveUndoesCreate(db: Db, tripId: int, participantId: int)
    requires Create(db, tripId, participantId).Ok?
    ensures Remove(Create(db, tripId, participantId).value.0, tripId, participantId) == Ok(db)
  {
    var l := Link(tripId, participantId);
    assert db.links + {l} - {l} == db.links;
  }

  /** A created link is listed both among the trip's participants and among
      the participant's trips; a second creation of it is a Conflict. */
  lemma CreatedLinkIsVisible(db: Db, tripId: int, participantId: int)
    requires Create(db, tripId, participantId).Ok?
    ensures var db' := Create(db, tripId, participantId).value.0;
      && Link(tripId, participantId) in FindParticipantsOfTrip(db', tripId).value
      && Link(tripId, participantId) in FindTripsByParticipant(db', participantId).value
      && Create(db', tripId, participantId) == Err(Conflict(LinkExistsMessage))
  {
  }
}
