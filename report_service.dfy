/**
 * `ReportService`: fetches the three lookup lists once, maps every
 * transaction of the month to a report row and builds the two sheets of the
 * workbook. The adapter's answers are parameters (`ApiResponses`); saving
 * the workbook to disk is not part of this model.
 */
module ReportServices {
  import opened Wrappers
  import opened Dtos
  import opened ViewModels
  import opened TransactionMapping
  import opened CategorySummary

  /**
   * What the adapter's requests return during one `GetTransactions` call.
   * A request that fails yields `default`, a null list.
   */
  datatype ApiResponses = ApiResponses(
    categories: Option<seq<Category>>,
    accounts: Option<seq<Account>>,
    creditCards: Option<seq<CreditCard>>,
    transactions: Option<seq<TransactionDto>>)

  /** The workbook: the transactions sheet as a table of rows, and the summary sheet's cells. */
  datatype Workbook = Workbook(transactionsSheet: seq<TransactionViewModel>, summarySheet: map<(int, int), CellValue>)

  /**
   * Enumerating `transactionDTOs.Select(...)`. A null transactions list makes
   * `Select` throw `ArgumentNullException` for its `source`; a null lookup
   * list makes `FirstOrDefault` throw the same, but only once a row is
   * mapped, so an empty month never fails.
   */
  function MapRows(categories: Option<seq<Category>>, accounts: Option<seq<Account>>,
                   creditCards: Option<seq<CreditCard>>, transactions: Option<seq<TransactionDto>>):
    (r: Result<seq<TransactionViewModel>, Exception>)
    ensures r.Failure? <==>
      transactions.None? || (transactions.value != [] && (accounts.None? || categories.None? || creditCards.None?))
    ensures r.Failure? ==> r.error == ArgumentNullException("source")
    ensures r.Success? ==> |r.value| == |transactions.value|
    ensures r.Success? && transactions.value != [] ==>
      r.value == MapTransactions(transactions.value, accounts.value, categories.value, creditCards.value)
  {
    match transactions
    case None => Failure(ArgumentNullException("source"))
    case Some(ts) =>
      if ts == [] then Success([])
      else if accounts.None? || categories.None? || creditCards.None? then Failure(ArgumentNullException("source"))
      else Success(MapTransactions(ts, accounts.value, categories.value, creditCards.value))
  }

  /** The sum of `AmountCents` over the raw transactions. */
  function TotalCents(ts: seq<TransactionDto>): int
  {
    if ts == [] then 0 else ts[0].amountCents + TotalCents(ts[1..])
  }

  /** Mapping keeps the money: the rows' amounts add up to the transactions' cents. */
  lemma {:induction false} MappedTotal(ts: seq<TransactionDto>, accounts: seq<Account>, categories: seq<Category>,
                                       creditCards: seq<CreditCard>)
    ensures Total(MapTransactions(ts, accounts, categories, creditCards)) == TotalCents(ts)
  {
    if ts != [] {
      var rows := MapTransactions(ts, accounts, categories, creditCards);
      assert rows[1..] == MapTransactions(ts[1..], accounts, categories, creditCards);
      MappedTotal(ts[1..], accounts, categories, creditCards);
    }
  }

  /**
   * The summary sheet's sums add up to the month's total in cents: every
   * transaction is counted in exactly one category.
   */
  lemma ReportTotal(less: (string, string) -> bool, ts: seq<TransactionDto>, accounts: seq<Account>,
                    categories: seq<Category>, creditCards: seq<CreditCard>)
    requires StrictTotalOrder(less)
    ensures SumColumn(Summary(less, MapTransactions(ts, accounts, categories, creditCards))) == TotalCents(ts)
  {
    SummaryTotal(less, MapTransactions(ts, accounts, categories, creditCards));
    MappedTotal(ts, accounts, categories, creditCards);
  }

  /**
   * `GenerateExcel` without the file: the transactions sheet is the table of
   * rows, the summary sheet holds the ascending categories and their sums.
   */
  method GenerateExcel(transactions: seq<TransactionViewModel>, less: (string, string) -> bool)
    returns (workbook: Workbook)
    requires StrictTotalOrder(less)
    ensures workbook.transactionsSheet == transactions
    ensures SheetHolds(workbook.summarySheet, Summary(less, transactions))
  {
    var summarySheet := WriteSummary(less, transactions);
    workbook := Workbook(transactions, summarySheet);
  }

  class ReportService {
    var categories: Option<seq<Category>>
    var accounts: Option<seq<Account>>
    var creditCards: Option<seq<CreditCard>>
    var isReady: bool
    /** How many times the lookups were fetched. */
    ghost var initCount: nat

    /** The lookups are fetched exactly when the service is ready, and only once. */
    ghost predicate Valid()
      reads this
    {
      initCount == if isReady then 1 else 0
    }

    constructor()
      ensures Valid() && !isReady
      ensures categories.None? && accounts.None? && creditCards.None?
    {
      categories, accounts, creditCards := None, None, None;
      isReady := false;
      initCount := 0;
    }

    /** `Init`: fetch the three lookup lists and mark the service ready. */
    method Init(api: ApiResponses)
      modifies this
      ensures categories == api.categories && accounts == api.accounts && creditCards == api.creditCards
      ensures isReady && initCount == old(initCount) + 1
    {
      categories := api.categories;
      accounts := api.accounts;
      creditCards := api.creditCards;
      isReady := true;
      initCount := initCount + 1;
    }

    /**
     * `GetTransactions`: fetch the lookups unless already ready, fetch the
     * transactions, map them and generate the workbook. A lookup fetched as
     * null stays null: `isReady` is set all the same.
     */
    method GetTransactions(api: ApiResponses, less: (string, string) -> bool)
      returns (result: Result<Workbook, Exception>)
      requires Valid() && StrictTotalOrder(less)
      modifies this
      ensures Valid() && isReady
      ensures old(isReady) ==>
        categories == old(categories) && accounts == old(accounts) && creditCards == old(creditCards)
      ensures !old(isReady) ==>
        categories == api.categories && accounts == api.accounts && creditCards == api.creditCards
      ensures match MapRows(categories, accounts, creditCards, api.transactions)
        case Failure(e) => result == Failure(e)
        case Success(rows) =>
          result.Success? && result.value.transactionsSheet == rows
          && SheetHolds(result.value.summarySheet, Summary(less, rows))
    {
      if !isReady {
        Init(api);
      }
      var transactions := MapRows(categories, accounts, creditCards, api.transactions);
      match transactions {
        case Failure(e) =>
          result := Failure(e);
        case Success(rows) =>
          var workbook := GenerateExcel(rows, less);
          result := Success(workbook);
      }
    }
  }

  /**
   * Two reports from one service: the second uses the lookups fetched for
   * the first, whatever the adapter would answer now, so a lookup that
   * failed the first time fails every non-empty month after it.
   */
  method GenerateTwice(first: ApiResponses, second: ApiResponses, less: (string, string) -> bool)
    returns (report1: Result<Workbook, Exception>, report2: Result<Workbook, Exception>)
    requires StrictTotalOrder(less)
    ensures var rows := MapRows(first.categories, first.accounts, first.creditCards, second.transactions);
      && (report2.Success? <==> rows.Success?)
      && (report2.Success? ==> report2.value.transactionsSheet == rows.value)
    ensures first.accounts.None? && second.transactions.Some? && second.transactions.value != [] ==>
      report2 == Failure(ArgumentNullException("source"))
  {
    var service := new ReportService();
    report1 := service.GetTransactions(first, less);
    report2 := service.GetTransactions(second, less);
  }
}
