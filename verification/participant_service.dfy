/** Participants: records of people who can be linked to trips. They carry no
    owner. Deleting one deletes its links first. */
module ParticipantService {
  import opened Wrappers
  import opened Text
  import opened Store

  function NotFoundMessage(id: int): string {
    "Participant with ID " + IntToDecimal(id) + " not found"
  }

  /** `create`: a participant with the given fields, under the next id. */
  function Create(db: Db, firstName: string, lastName: string, email: string, phone: Option<string>): (r: (Db, int))
    ensures var (db', id) := r;
      && id == db.nextParticipantId
      && db'.participants == db.participants[id := Participant(firstName, lastName, email, phone)]
      && db' == db.(participants := db'.participants, nextParticipantId := db.nextParticipantId + 1)
  {
    var id := db.nextParticipantId;
    (db.(participants := db.participants[id := Participant(firstName, lastName, email, phone)],
         nextParticipantId := id + 1), id)
  }

  /** `findOne`: the participant, or NotFound. */
  function FindOne(db: Db, id: int): (r: Result<Participant>)
    ensures r.Err? <==> id !in db.participants
    ensures r.Err? ==> r.error == NotFound(NotFoundMessage(id))
    ensures r.Ok? ==> r.value == db.participants[id]
  {
    if id !in db.participants then Err(NotFound(NotFoundMessage(id)))
    else Ok(db.participants[id])
  }

  /** `update`: the participant must exist (checked first). The store then
      writes every field the body carries: a given value replaces the stored
      one, a `null` clears the nullable phone, and a `null` first name, last
      name or email is refused by the store. A field left out is kept. */
  function Update(db: Db, id: int, firstName: Patch<string>, lastName: Patch<string>,
                  email: Patch<string>, phone: Patch<string>): (r: Result<Db>)
    ensures r.Err? <==> id !in db.participants || firstName.Null? || lastName.Null? || email.Null?
    ensures id !in db.participants ==> r == Err(NotFound(NotFoundMessage(id)))
    ensures id in db.participants && (firstName.Null? || lastName.Null? || email.Null?) ==>
      r.Err? && r.error.StoreFault?
    ensures r.Ok? ==> r.value.participants.Keys == db.participants.Keys
    ensures r.Ok? ==>
      var before := db.participants[id];
      var after := r.value.participants[id];
      && (firstName.Given? ==> after.firstName == firstName.value)
      && (firstName.Absent? ==> after.firstName == before.firstName)
      && (lastName.Given? ==> after.lastName == lastName.value)
      && (lastName.Absent? ==> after.lastName == before.lastName)
      && (email.Given? ==> after.email == email.value)
      && (email.Absent? ==> after.email == before.email)
      && (phone.Given? ==> after.phone == Some(phone.value))
      && (phone.Null? ==> after.phone.None?)
      && (phone.Absent? ==> after.phone == before.phone)
      && (forall k :: k in db.participants && k != id ==> r.value.participants[k] == db.participants[k])
      && r.value == db.(participants := r.value.participants)
  {
    if id !in db.participants then Err(NotFound(NotFoundMessage(id)))
    else if firstName.Null? then Err(StoreFault(NullColumnMessage("first_name")))
    else if lastName.Null? then Err(StoreFault(NullColumnMessage("last_name")))
    else if email.Null? then Err(StoreFault(NullColumnMessage("email")))
    else
      var p := db.participants[id];
      var p' := Participant(firstName.Required(p.firstName), lastName.Required(p.lastName),
                            email.Required(p.email), phone.Nullable(p.phone));
      Ok(db.(participants := db.participants[id := p']))
  }

  /** A `null` phone clears it, and then the participant reads back with no
      phone and every other field as before. */
  lemma NullClearsPhone(db: Db, id: int)
    requires id in db.participants
    ensures var r := Update(db, id, Absent, Absent, Absent, Null);
      && r.Ok?
      && FindOne(r.value, id) == Ok(db.participants[id].(phone := None))
  {
  }

  /** `remove`: delete an existing participant and all its links (two store
      calls in the source, one step here); other participants' links stay. */
  function Remove(db: Db, id: int): (r: Result<Db>)
    ensures r.Err? <==> id !in db.participants
    ensures r.Err? ==> r.error == NotFound(NotFoundMessage(id))
    ensures r.Ok? ==> r.value.participants == db.participants - {id}
    ensures r.Ok? ==> forall l :: l in r.value.links <==> l in db.links && l.participantId != id
    ensures r.Ok? ==> r.value == db.(participants := r.value.participants, links := r.value.links)
  {
    if id !in db.participants then Err(NotFound(NotFoundMessage(id)))
    else Ok(db.(participants := db.participants - {id}, links := db.links - LinksOfParticipant(db, id)))
  }

  /** Every participant operation keeps the store valid; after a delete no
      link refers to the deleted participant. */
  lemma OperationsPreserveValid(db: Db, id: int, firstName: string, lastName: string, email: string,
                                phone: Option<string>, newFirstName: Patch<string>, newLastName: Patch<string>,
                                newEmail: Patch<string>, newPhone: Patch<string>)
    requires Valid(db)
    ensures Valid(Create(db, firstName, lastName, email, phone).0)
    ensures Update(db, id, newFirstName, newLastName, newEmail, newPhone).Ok? ==>
      Valid(Update(db, id, newFirstName, newLastName, newEmail, newPhone).value)
    ensures Remove(db, id).Ok? ==>
      Valid(Remove(db, id).value) && forall l :: l in Remove(db, id).value.links ==> l.participantId != id
  {
  }

  /** A created participant is found again with its given fields, has no
      links, and removing it gives back the original store, except that its
      id stays used. */
  lemma CreateFindRemove(db: Db, firstName: string, lastName: string, email: string, phone: Option<string>)
    requires Valid(db)
    ensures var (db', id) := Create(db, firstName, lastName, email, phone);
      && id !in db.participants
      && FindOne(db', id) == Ok(Participant(firstName, lastName, email, phone))
      && LinksOfParticipant(db', id) == {}
      && Remove(db', id) == Ok(db.(nextParticipantId := db.nextParticipantId + 1))
  {
    var (db', id) := Create(db, firstName, lastName, email, phone);
    assert db'.participants - {id} == db.participants;
    assert forall l :: l in db.links ==> l.participantId != id;
    assert LinksOfParticipant(db', id) == {};
    assert db.links - {} == db.links;
  }
}
