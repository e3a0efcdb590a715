/**
 * The records the Organizze API returns, reduced to the fields the report
 * reads. The C# `long` identifiers are compared for equality only, so they
 * are plain integers here; a `Name` the JSON leaves out is null.
 */
module Dtos {
  import opened Wrappers
  import opened Dates

  datatype Account = Account(id: int, name: Option<string>)

  datatype Category = Category(id: int, name: Option<string>, parentId: Option<int>)

  datatype CreditCard = CreditCard(id: int, name: Option<string>)

  /**
   * A raw transaction. `AmountCents`, `TotalInstallments`, `Installment`
   * and `Recurring` are non-nullable value types in the record.
   */
  datatype TransactionDto = TransactionDto(
    id: int,
    description: string,
    date: DateTime,
    amountCents: int,
    totalInstallments: int,
    installment: int,
    recurring: bool,
    accountId: int,
    categoryId: int,
    creditCardId: int)
}

/** The row of the transactions sheet. */
module ViewModels {
  import opened Wrappers
  import opened Dates

  /**
   * `TransactionViewModel`. `amount` is the C# `decimal Amount` in
   * hundredths (an amount of 12.34 is 1234); the other value-typed columns
   * are nullable.
   */
  datatype TransactionViewModel = TransactionViewModel(
    description: string,
    date: Option<DateTime>,
    amount: int,
    totalInstallments: Option<int>,
    installment: Option<int>,
    recurring: Option<bool>,
    account: Option<string>,
    category: Option<string>,
    creditCard: Option<string>)
}
