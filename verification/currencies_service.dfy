/** Exchange rates against PLN, keyed by a three-letter code. */
module CurrenciesService {
  import opened Wrappers
  import opened Store

  const InvalidCodeMessage := "Invalid currency code - must be 3 uppercase letters"
  const NotFoundMessage := "Currency not found"

  /** The pattern `^[A-Z]{3}$`: exactly three ASCII capital letters. */
  predicate IsCodeShape(code: string) {
    |code| == 3 && forall i :: 0 <= i < |code| ==> 'A' <= code[i] <= 'Z'
  }

  /** `upsertCurrency`: a code of the wrong shape is a BadRequest; a known code
      gets the new rate, keeping its id; an unknown one is added under the
      next currency id. */
  function UpsertCurrency(db: Db, code: string, rate: real): (r: Result<(Db, Currency)>)
    ensures r.Err? <==> !IsCodeShape(code)
    ensures r.Err? ==> r.error == BadRequest(InvalidCodeMessage)
    ensures r.Ok? ==>
      var (db', c) := r.value;
      && c.rate == rate
      && (code in db.currencies ==>
            c == db.currencies[code].(rate := rate) && db'.nextCurrencyId == db.nextCurrencyId)
      && (code !in db.currencies ==>
            c.code == code && c.id == db.nextCurrencyId && db'.nextCurrencyId == db.nextCurrencyId + 1)
      && db'.currencies == db.currencies[code := c]
      && db' == db.(currencies := db'.currencies, nextCurrencyId := db'.nextCurrencyId)
  {
    if !IsCodeShape(code) then Err(BadRequest(InvalidCodeMessage))
    else if code in db.currencies then
      var c := db.currencies[code].(rate := rate);
      Ok((db.(currencies := db.currencies[code := c]), c))
    else
      var c := Currency(db.nextCurrencyId, code, rate);
      Ok((db.(currencies := db.currencies[code := c], nextCurrencyId := db.nextCurrencyId + 1), c))
  }

  /** `getOne`: the stored currency, or NotFound. */
  function GetOne(db: Db, code: string): (r: Result<Currency>)
    ensures r.Err? <==> code !in db.currencies
    ensures r.Err? ==> r.error == NotFound(NotFoundMessage)
    ensures r.Ok? ==> r.value == db.currencies[code]
  {
    if code !in db.currencies then Err(NotFound(NotFoundMessage))
    else Ok(db.currencies[code])
  }

  /** Upserting the same code and rate twice leaves the store the first
      upsert left. */
  lemma UpsertIdempotent(db: Db, code: string, rate: real)
    requires WellKeyed(db)
    requires IsCodeShape(code)
    ensures var (db1, c1) := UpsertCurrency(db, code, rate).value;
      UpsertCurrency(db1, code, rate) == Ok((db1, c1))
  {
    var (db1, c1) := UpsertCurrency(db, code, rate).value;
    assert db1.currencies[code := c1] == db1.currencies;
  }

  /** After an upsert the code reads back with the new rate, the store stays
      valid, and every other code is untouched. */
  lemma UpsertThenGetOne(db: Db, code: string, rate: real, other: string)
    requires Valid(db)
    requires IsCodeShape(code)
    requires other != code
    ensures var db' := UpsertCurrency(db, code, rate).value.0;
      && GetOne(db', code).Ok? && GetOne(db', code).value.rate == rate
      && GetOne(db', other) == GetOne(db, other)
      && Valid(db')
  {
  }

  /** A code holding any lower-case letter is refused, e.g. "usd" or "Eur":
      the upsert does not upper-case for its caller. */
  lemma LowerCaseRejected(db: Db, code: string, i: int, rate: real)
    requires 0 <= i < |code| && 'a' <= code[i] <= 'z'
    ensures UpsertCurrency(db, code, rate) == Err(BadRequest(InvalidCodeMessage))
  {
  }
}
