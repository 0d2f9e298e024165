/** The currency-code check declared on the currency and payment request
    bodies. It takes effect only when a validation pipe applies the bodies'
    decorators; the services themselves do not call it. */
module CurrencyCodeValidator {
  import opened Text
  import CurrenciesService

  /** The accepted subset of ISO 4217. */
  const IsoCodes: set<string> := {"USD", "EUR", "GBP", "PLN", "JPY", "CHF"}

  /** `IsValidCurrencyCodeValidator.validate`: the upper-cased code is one of
      the accepted ones. */
  function Validate(code: string): (ok: bool)
    ensures ok ==> |code| == 3
  {
    ToUpper(code) in IsoCodes
  }

  /** Acceptance ignores case. */
  lemma CaseInsensitive(code: string)
    ensures Validate(code) == Validate(ToUpper(code))
  {
    ToUpperIdempotent(code);
  }

  /** The six codes are accepted in any case, e.g. "usd" and "Chf". */
  lemma ListedCodesAccepted()
    ensures forall c :: c in IsoCodes ==> Validate(c)
    ensures Validate("usd") && Validate("Chf")
  {
    assert ToUpper("usd") == "USD";
    assert ToUpper("Chf") == "CHF";
    forall c | c in IsoCodes
      ensures Validate(c)
    {
      assert ToUpper(c) == c;
    }
  }

  /** Anything not three characters long is rejected. A code of three
      capital letters is accepted exactly when it is listed, so every unlisted
      one, such as "SEK", is rejected. */
  lemma OthersRejected(code: string)
    ensures |code| != 3 ==> !Validate(code)
    ensures CurrenciesService.IsCodeShape(code) ==> (Validate(code) <==> code in IsoCodes)
    ensures !Validate("SEK")
  {
    if CurrenciesService.IsCodeShape(code) {
      assert ToUpper(code) == code;
    }
    assert ToUpper("SEK") == "SEK";
  }

  /** Every accepted code, once upper-cased (as the currency route does before
      upserting), has the shape the upsert demands: when the check runs, the
      upsert never refuses a code that passed it. */
  lemma AcceptedCodesHaveUpsertShape(code: string)
    requires Validate(code)
    ensures CurrenciesService.IsCodeShape(ToUpper(code))
  {
  }
}
