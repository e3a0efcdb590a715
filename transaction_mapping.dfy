/**
 * The `Select` of `ReportService.GetTransactions`: each raw transaction
 * becomes a `TransactionViewModel`, its account, category and credit-card
 * ids replaced by the name of the first lookup entry with that id.
 */
module TransactionMapping {
  import opened Wrappers
  import opened Dtos
  import opened ViewModels

  /** LINQ `FirstOrDefault(predicate)` on a sequence of reference records: the first match, or null. */
  function FirstOrDefault<T>(xs: seq<T>, matches: T -> bool): (r: Option<T>)
    ensures r.None? <==> forall i :: 0 <= i < |xs| ==> !matches(xs[i])
    ensures forall i :: 0 <= i < |xs| && matches(xs[i]) && (forall j :: 0 <= j < i ==> !matches(xs[j])) ==>
      r == Some(xs[i])
  {
    if xs == [] then None
    else if matches(xs[0]) then Some(xs[0])
    else
      var r := FirstOrDefault(xs[1..], matches);
      assert forall i :: 1 <= i < |xs| ==> xs[i] == xs[1..][i - 1];
      r
  }

  /**
   * `Math.Round(n / d)` on a `decimal` with the default midpoint rule,
   * round half to even: the nearest integer, and the even one of two
   * equally near.
   */
  function RoundHalfEven(n: int, d: int): (r: int)
    requires d > 0
    ensures -d <= 2 * (n - r * d) <= d
    ensures 2 * (n - r * d) == d || 2 * (n - r * d) == -d ==> r % 2 == 0
  {
    var q, rem := n / d, n % d;
    if 2 * rem < d then q
    else if 2 * rem > d then q + 1
    else if q % 2 == 0 then q
    else q + 1
  }

  /** `Math.Round(num / den, 2)`, in hundredths. */
  function RoundToHundredths(num: int, den: int): int
    requires den > 0
  {
    RoundHalfEven(100 * num, den)
  }

  /**
   * The `Amount` column: `Math.Round((decimal)AmountCents / 100, 2)`, in
   * hundredths. `AmountCents` is a non-nullable `int`, so its null test
   * always holds and the `0M` alternative is never taken.
   */
  function Amount(amountCents: int): int
  {
    RoundToHundredths(amountCents, 100)
  }

  /** Dividing whole cents by 100 is exact, so the rounding changes nothing: 100 × Amount == AmountCents. */
  lemma AmountIsExact(amountCents: int)
    ensures Amount(amountCents) == amountCents
  {
    var r := Amount(amountCents);
    var e := amountCents - r;
    assert 100 * amountCents - r * 100 == 100 * e;
    assert -100 <= 200 * e <= 100;
  }

  /** `x?.Name` on the result of a `FirstOrDefault`. */
  function NameOrNull<T>(x: Option<T>, name: T -> Option<string>): Option<string>
  {
    match x
    case None => None
    case Some(v) => name(v)
  }

  /** The lambda given to `Select`. */
  function MapTransaction(t: TransactionDto, accounts: seq<Account>, categories: seq<Category>,
                          creditCards: seq<CreditCard>): (v: TransactionViewModel)
    ensures v.description == t.description && v.date == Some(t.date)
    ensures v.totalInstallments == Some(t.totalInstallments) && v.installment == Some(t.installment)
    ensures v.recurring == Some(t.recurring)
    ensures v.amount == t.amountCents
    ensures (forall i :: 0 <= i < |accounts| ==> accounts[i].id != t.accountId) ==> v.account == None
    ensures forall i :: (0 <= i < |accounts| && accounts[i].id == t.accountId &&
      (forall j :: 0 <= j < i ==> accounts[j].id != t.accountId)) ==> v.account == accounts[i].name
    ensures (forall i :: 0 <= i < |categories| ==> categories[i].id != t.categoryId) ==> v.category == None
    ensures forall i :: (0 <= i < |categories| && categories[i].id == t.categoryId &&
      (forall j :: 0 <= j < i ==> categories[j].id != t.categoryId)) ==> v.category == categories[i].name
    ensures (forall i :: 0 <= i < |creditCards| ==> creditCards[i].id != t.creditCardId) ==> v.creditCard == None
    ensures forall i :: (0 <= i < |creditCards| && creditCards[i].id == t.creditCardId &&
      (forall j :: 0 <= j < i ==> creditCards[j].id != t.creditCardId)) ==> v.creditCard == creditCards[i].name
  {
    var account := FirstOrDefault(accounts, (a: Account) => a.id == t.accountId);
    var category := FirstOrDefault(categories, (c: Category) => c.id == t.categoryId);
    var creditCard := FirstOrDefault(creditCards, (cc: CreditCard) => cc.id == t.creditCardId);
    AmountIsExact(t.amountCents);
    TransactionViewModel(
      description := t.description,
      date := Some(t.date),
      amount := Amount(t.amountCents),
      totalInstallments := Some(t.totalInstallments),
      installment := Some(t.installment),
      recurring := Some(t.recurring),
      account := NameOrNull(account, (a: Account) => a.name),
      category := NameOrNull(category, (c: Category) => c.name),
      creditCard := NameOrNull(creditCard, (cc: CreditCard) => cc.name))
  }

  /** `Select`: one row per raw transaction, in the same order. */
  function MapTransactions(ts: seq<TransactionDto>, accounts: seq<Account>, categories: seq<Category>,
                           creditCards: seq<CreditCard>): (vs: seq<TransactionViewModel>)
    ensures |vs| == |ts|
    ensures forall i :: 0 <= i < |ts| ==> vs[i] == MapTransaction(ts[i], accounts, categories, creditCards)
  {
    if ts == [] then []
    else
      [MapTransaction(ts[0], accounts, categories, creditCards)]
        + MapTransactions(ts[1..], accounts, categories, creditCards)
  }
}
