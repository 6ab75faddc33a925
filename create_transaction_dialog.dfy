/**
 * The "New Transaction" dialog: the form state, the guard and sign rule of its submit
 * handler, the reset, and the keys the amount field refuses.
 */
module CreateTransactionDialog {
  import opened Wrappers
  import opened JsText

  datatype TransactionType = Income | Expense

  /** What `TransactionService.create` is given; `date` is the picked instant in milliseconds. */
  datatype Dto = Dto(description: string, amount: JsNumber, date: int, categoryId: JsNumber, paymentMethodId: JsNumber)

  /**
   * `parseFloat(amount.replace(',', '.')) * (type === 'expense' ? -1 : 1)`: the first comma
   * is read as a decimal point, and an expense is negated.
   */
  function FinalAmount(amount: string, kind: TransactionType): (r: JsNumber)
    ensures r.NaN? <==> ParseFloat(ReplaceFirst(amount, ',', '.')).NaN?
    ensures r.Finite? && kind == Income ==> r == ParseFloat(ReplaceFirst(amount, ',', '.'))
    ensures r.Finite? && kind == Expense ==> r.value == -ParseFloat(ReplaceFirst(amount, ',', '.')).value
  {
    var parsed := ParseFloat(ReplaceFirst(amount, ',', '.'));
    if kind == Expense then Negate(parsed) else parsed
  }

  /** An expense is the income read from the same text, negated. */
  lemma ExpenseNegatesIncome(amount: string)
    ensures FinalAmount(amount, Expense) == Negate(FinalAmount(amount, Income))
  {
  }

  /**
   * "12,50" is 12.50: the comma stands for the decimal point, and whatever follows the
   * fraction (a second comma included, an exponent mark not) is ignored.
   */
  lemma CommaIsDecimalPoint(i: string, f: string, tail: string)
    requires AllDigits(i) && AllDigits(f) && |i| + |f| > 0
    requires EndsNumber(tail)
    ensures FinalAmount(i + "," + f + tail, Income) == Finite(DecimalValue(i, f))
  {
    assert ',' !in i by {
      assert forall k :: 0 <= k < |i| ==> IsDigit(i[k]);
    }
    var rest := f + tail;
    assert i + "," + f + tail == i + "," + rest;
    ReplaceFirstComma(i, rest);
    assert i + "." + rest == i + "." + f + tail;
    ParseFloatDecimal(i, f, tail);
  }

  /** With no '-' typed, the sign of the amount sent is the sign the type selects. */
  lemma SignFollowsType(amount: string, kind: TransactionType)
    requires '-' !in amount
    ensures FinalAmount(amount, kind).Finite? ==>
      (kind == Income ==> FinalAmount(amount, kind).value >= 0.0) &&
      (kind == Expense ==> FinalAmount(amount, kind).value <= 0.0)
  {
    var s := ReplaceFirst(amount, ',', '.');
    assert '-' !in s;
    var t := TrimStart(s);
    assert t != "" ==> t[0] == s[|s| - |t|];
  }

  // ---------------------------------------------------------------------------
  // the amount field

  /**
   * `handleAmountKeyDown`: the keys whose default action is prevented; none is a digit or a
   * decimal separator, so a plain decimal amount can still be typed.
   */
  predicate Suppressed(key: char): (r: bool)
    ensures r ==> !IsDigit(key) && key != ',' && key != '.'
  {
    key == 'e' || key == 'E' || key == '+' || key == '-'
  }

  /** The text typing `keys` appends to the amount field, with the suppressed keys held back. */
  function TypeKeys(text: string, keys: seq<char>): (r: string)
    ensures forall k :: 0 <= k < |r| ==> r[k] in text || !Suppressed(r[k])
  {
    if keys == [] then text
    else
      var before := TypeKeys(text, keys[..|keys| - 1]);
      var key := keys[|keys| - 1];
      if Suppressed(key) then before else before + [key]
  }

  /** Text typed into an empty field holds no suppressed character, so in particular no minus sign. */
  lemma TypedAmountUnsigned(keys: seq<char>, kind: TransactionType)
    ensures forall k :: 0 <= k < |TypeKeys("", keys)| ==> !Suppressed(TypeKeys("", keys)[k])
    ensures FinalAmount(TypeKeys("", keys), kind).Finite? ==>
      (kind == Income ==> FinalAmount(TypeKeys("", keys), kind).value >= 0.0) &&
      (kind == Expense ==> FinalAmount(TypeKeys("", keys), kind).value <= 0.0)
  {
    var typed := TypeKeys("", keys);
    assert '-' !in typed;
    SignFollowsType(typed, kind);
  }

  // ---------------------------------------------------------------------------
  // the form

  class TransactionForm {
    var open: bool
    var loading: bool
    var kind: TransactionType
    var description: string
    var amount: string
    var date: Option<int>
    var categoryId: string
    var paymentMethodId: string
    var successCalls: nat  // how many times `onSuccess` ran

    /** The fields `resetForm` restores, with `new Date()` read as `now`. */
    predicate Cleared(now: int)
      reads this
    {
      kind == Expense && description == "" && amount == "" && date == Some(now) &&
      categoryId == "" && paymentMethodId == ""
    }

    /** The first render, at instant `now`: closed, idle and cleared. */
    constructor(now: int)
      ensures !open && !loading && successCalls == 0
      ensures Cleared(now)
    {
      open := false;
      loading := false;
      kind := Expense;
      description := "";
      amount := "";
      date := Some(now);
      categoryId := "";
      paymentMethodId := "";
      successCalls := 0;
    }

    /** The guard of `handleSubmit`: a date, an amount, a category and a payment method; the description may be empty. */
    predicate SubmitAllowed()
      reads this
    {
      date.Some? && amount != "" && categoryId != "" && paymentMethodId != ""
    }

    /** The body sent for the current fields. */
    function Request(): (dto: Dto)
      reads this
      requires date.Some?
      ensures dto.amount == FinalAmount(amount, kind)
      ensures dto.categoryId == Number(categoryId) && dto.paymentMethodId == Number(paymentMethodId)
      ensures dto.description == description && dto.date == date.value
    {
      Dto(description, FinalAmount(amount, kind), date.value, Number(categoryId), Number(paymentMethodId))
    }

    /** `resetForm()` at instant `now`. */
    method ResetForm(now: int)
      modifies this
      ensures Cleared(now)
      ensures open == old(open) && loading == old(loading) && successCalls == old(successCalls)
    {
      description := "";
      amount := "";
      date := Some(now);
      kind := Expense;
      categoryId := "";
      paymentMethodId := "";
    }

    /**
     * `handleSubmit()`, where `createSucceeds` is the outcome of the request and `now` the
     * instant of the reset. A failed guard sends nothing and changes nothing. Otherwise the
     * current fields are sent; on success the dialog closes, `onSuccess` runs once and the
     * form is cleared, on failure the form is kept for another try. Loading ends either way.
     */
    method HandleSubmit(createSucceeds: bool, now: int) returns (sent: Option<Dto>)
      modifies this
      ensures !old(SubmitAllowed()) ==> (sent.None? &&
        open == old(open) && loading == old(loading) && successCalls == old(successCalls) &&
        kind == old(kind) && description == old(description) && amount == old(amount) &&
        date == old(date) && categoryId == old(categoryId) && paymentMethodId == old(paymentMethodId))
      ensures old(SubmitAllowed()) ==> sent == Some(old(Request())) && !loading
      ensures old(SubmitAllowed()) && createSucceeds ==>
        (!open && successCalls == old(successCalls) + 1 && Cleared(now))
      ensures old(SubmitAllowed()) && !createSucceeds ==> (
        open == old(open) && successCalls == old(successCalls) &&
        kind == old(kind) && description == old(description) && amount == old(amount) &&
        date == old(date) && categoryId == old(categoryId) && paymentMethodId == old(paymentMethodId))
    {
      if !SubmitAllowed() {
        return None;
      }
      loading := true;
      var dto := Request();
      sent := Some(dto);
      if createSucceeds {
        open := false;
        successCalls := successCalls + 1;
        ResetForm(now);
      }
      loading := false;
    }
  }
}
