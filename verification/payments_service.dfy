/** Payments in a foreign currency, converted to PLN at the stored rate. */
module PaymentsService {
  import opened Wrappers
  import opened Text
  import opened Store

  const UnsupportedMessage := "Unsupported currency"
  const NotFoundMessage := "Payment not found"

  /** The amount in PLN of `amount` units at `rate` PLN per unit. */
  function AmountPln(amount: real, rate: real): real {
    amount * rate
  }

  /** `createPayment`: the currency is looked up by the upper-cased code; an
      unknown one is a BadRequest. The payment records the amount, the
      currency's id and the amount in PLN, under the next payment id. */
  function CreatePayment(db: Db, amount: real, currencyCode: string): (r: Result<(Db, int)>)
    ensures r.Err? <==> ToUpper(currencyCode) !in db.currencies
    ensures r.Err? ==> r.error == BadRequest(UnsupportedMessage)
    ensures r.Ok? ==>
      var (db', id) := r.value;
      var c := db.currencies[ToUpper(currencyCode)];
      && id == db.nextPaymentId
      && id in db'.payments
      && db'.payments[id] == Payment(amount, c.id, AmountPln(amount, c.rate))
      && db'.payments == db.payments[id := db'.payments[id]]
      && db' == db.(payments := db'.payments, nextPaymentId := db.nextPaymentId + 1)
  {
    var code := ToUpper(currencyCode);
    if code !in db.currencies then Err(BadRequest(UnsupportedMessage))
    else
      var c := db.currencies[code];
      var id := db.nextPaymentId;
      Ok((db.(payments := db.payments[id := Payment(amount, c.id, AmountPln(amount, c.rate))],
              nextPaymentId := id + 1), id))
  }

  /** `getOne`: the payment, or NotFound. */
  function GetOne(db: Db, id: int): (r: Result<Payment>)
    ensures r.Err? <==> id !in db.payments
    ensures r.Err? ==> r.error == NotFound(NotFoundMessage)
    ensures r.Ok? ==> r.value == db.payments[id]
  {
    if id !in db.payments then Err(NotFound(NotFoundMessage))
    else Ok(db.payments[id])
  }

  /** The currency code's case does not matter: "usd" pays like "USD". */
  lemma CodeCaseIgnored(db: Db, amount: real, currencyCode: string)
    ensures CreatePayment(db, amount, currencyCode) == CreatePayment(db, amount, ToUpper(currencyCode))
  {
    ToUpperIdempotent(currencyCode);
  }

  /** A created payment reads back with `amountPln = amount × rate`, under an
      id no earlier payment had, and the store stays valid. */
  lemma CreateThenGetOne(db: Db, amount: real, currencyCode: string)
    requires Valid(db)
    requires ToUpper(currencyCode) in db.currencies
    ensures var (db', id) := CreatePayment(db, amount, currencyCode).value;
      var rate := db.currencies[ToUpper(currencyCode)].rate;
      && id !in db.payments
      && GetOne(db', id).Ok?
      && GetOne(db', id).value.amount == amount
      && GetOne(db', id).value.amountPln == amount * rate
      && Valid(db')
  {
  }
}
