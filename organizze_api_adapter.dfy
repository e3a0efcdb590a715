/**
 * The request URLs of the current API adapter
 * (Adapters/OrganizzeAPIAdapter.cs). The HTTP call itself, the
 * Basic-auth header and the JSON decoding are not part of this model.
 */
module OrganizzeApi {
  import opened Wrappers
  import opened Text
  import opened Dates
  import opened UriEscape
  import opened QueryBuilders

  /**
   * The private `Endpoint` enum. A C# enum holds any value of its underlying
   * `int`; only the four named members have a path.
   */
  newtype Endpoint = x: int | -0x8000_0000 <= x < 0x8000_0000

  const CreditCards: Endpoint := 0
  const Categories: Endpoint := 1
  const Accounts: Endpoint := 2
  const Transactions: Endpoint := 3

  predicate IsNamedEndpoint(e: Endpoint)
  {
    e == CreditCards || e == Categories || e == Accounts || e == Transactions
  }

  const BaseUrl: string := "https://api.organizze.com.br/rest/v2"

  /** The path segment of each named endpoint (the switch expression of `GetEndpointUrl`). */
  function EndpointPath(e: Endpoint): Option<string>
  {
    if e == CreditCards then Some("credit_cards")
    else if e == Categories then Some("categories")
    else if e == Accounts then Some("accounts")
    else if e == Transactions then Some("transactions")
    else None
  }

  /**
   * `GetEndpointUrl`: the base URL, '/', and the endpoint's path; any value
   * outside the four named members throws `ArgumentException`.
   */
  function GetEndpointUrl(e: Endpoint): (r: Result<string, Exception>)
    ensures r.Success? <==> IsNamedEndpoint(e)
    ensures !IsNamedEndpoint(e) ==> r == Failure(ArgumentException("Unknown endpoint"))
  {
    match EndpointPath(e)
    case Some(endpointPath) => Success(BaseUrl + "/" + endpointPath)
    case None => Failure(ArgumentException("Unknown endpoint"))
  }

  /** The URL of each named endpoint. */
  lemma EndpointUrlTable()
    ensures GetEndpointUrl(CreditCards) == Success(BaseUrl + "/credit_cards")
    ensures GetEndpointUrl(Categories) == Success(BaseUrl + "/categories")
    ensures GetEndpointUrl(Accounts) == Success(BaseUrl + "/accounts")
    ensures GetEndpointUrl(Transactions) == Success(BaseUrl + "/transactions")
  {
    assert BaseUrl + "/" + "credit_cards" == BaseUrl + "/credit_cards";
    assert BaseUrl + "/" + "categories" == BaseUrl + "/categories";
    assert BaseUrl + "/" + "accounts" == BaseUrl + "/accounts";
    assert BaseUrl + "/" + "transactions" == BaseUrl + "/transactions";
  }

  /** Distinct endpoints are sent to distinct URLs. */
  lemma EndpointUrlsDistinct(e1: Endpoint, e2: Endpoint)
    requires IsNamedEndpoint(e1) && IsNamedEndpoint(e2) && e1 != e2
    ensures GetEndpointUrl(e1).value != GetEndpointUrl(e2).value
  {
    var n := |BaseUrl| + 1;
    var p1, p2 := EndpointPath(e1).value, EndpointPath(e2).value;
    var u1, u2 := GetEndpointUrl(e1).value, GetEndpointUrl(e2).value;
    assert u1[n..] == p1;
    assert u2[n..] == p2;
    assert p1[0] != p2[0] || |p1| != |p2|;
  }

  /**
   * URL assembly in `GetEndpointData`: the query string is appended when it
   * is neither null nor empty.
   */
  function RequestUrl(e: Endpoint, queryString: Option<string>): (r: Result<string, Exception>)
    ensures r.Success? <==> IsNamedEndpoint(e)
    ensures r.Success? ==> (|r.value| >= |GetEndpointUrl(e).value| &&
      r.value[..|GetEndpointUrl(e).value|] == GetEndpointUrl(e).value)
    ensures queryString.None? || queryString == Some("") ==> r == GetEndpointUrl(e)
    ensures r.Success? && queryString.Some? && queryString.value != "" ==>
      r.value == GetEndpointUrl(e).value + queryString.value
  {
    match GetEndpointUrl(e)
    case Failure(err) => Failure(err)
    case Success(endpointUrl) =>
      if queryString.Some? && queryString.value != "" then Success(endpointUrl + queryString.value)
      else Success(endpointUrl)
  }

  /** The requests the adapter issues through `GetEndpointData`. */
  datatype Request =
    | GetCategories
    | GetAccounts
    | GetCreditCards
    | GetTransactions(startDate: Option<DateTime>, endDate: Option<DateTime>, accountId: Option<int>)

  predicate ValidRequest(req: Request)
  {
    req.GetTransactions? ==>
      (req.startDate.Some? ==> ValidDateTime(req.startDate.value)) &&
      (req.endDate.Some? ==> ValidDateTime(req.endDate.value))
  }

  /**
   * The (key, value) pairs `GetTransactions` adds, one per argument that is
   * present, always in the order start_date, end_date, account_id.
   */
  function TransactionsQueryPairs(startDate: Option<DateTime>, endDate: Option<DateTime>, accountId: Option<int>):
    (pairs: seq<(string, string)>)
    requires startDate.Some? ==> ValidDateTime(startDate.value)
    requires endDate.Some? ==> ValidDateTime(endDate.value)
    ensures |pairs| == (if startDate.Some? then 1 else 0) + (if endDate.Some? then 1 else 0) + (if accountId.Some? then 1 else 0)
    ensures startDate.Some? ==> pairs[0] == ("start_date", FormatDate(startDate.value))
    ensures endDate.Some? ==> pairs[if startDate.Some? then 1 else 0] == ("end_date", FormatDate(endDate.value))
    ensures accountId.Some? ==> pairs[|pairs| - 1] == ("account_id", IntToString(accountId.value))
  {
    StartDatePair(startDate) + EndDatePair(endDate) + AccountIdPair(accountId)
  }

  function StartDatePair(startDate: Option<DateTime>): seq<(string, string)>
    requires startDate.Some? ==> ValidDateTime(startDate.value)
  {
    if startDate.Some? then [("start_date", FormatDate(startDate.value))] else []
  }

  function EndDatePair(endDate: Option<DateTime>): seq<(string, string)>
    requires endDate.Some? ==> ValidDateTime(endDate.value)
  {
    if endDate.Some? then [("end_date", FormatDate(endDate.value))] else []
  }

  function AccountIdPair(accountId: Option<int>): seq<(string, string)>
  {
    if accountId.Some? then [("account_id", IntToString(accountId.value))] else []
  }

  /** The endpoint a request goes to and the query string it passes, if any. */
  function EndpointOf(req: Request): Endpoint
  {
    match req
    case GetCategories => Categories
    case GetAccounts => Accounts
    case GetCreditCards => CreditCards
    case GetTransactions(_, _, _) => Transactions
  }

  /** The rendered transactions query for the arguments of a transactions request. */
  function TransactionsQuery(startDate: Option<DateTime>, endDate: Option<DateTime>, accountId: Option<int>): string
    requires startDate.Some? ==> ValidDateTime(startDate.value)
    requires endDate.Some? ==> ValidDateTime(endDate.value)
  {
    Render(Entries(TransactionsQueryPairs(startDate, endDate, accountId)))
  }

  /**
   * The URL a request is sent to: the transactions request always passes its
   * rendered query, the other three pass no query string.
   */
  function RequestedUrl(req: Request): string
    requires ValidRequest(req)
  {
    var queryString :=
      if req.GetTransactions? then Some(TransactionsQuery(req.startDate, req.endDate, req.accountId)) else None;
    RequestUrl(EndpointOf(req), queryString).value
  }

  /**
   * The transactions URL is the endpoint URL followed by the query, which is
   * never empty; every other request goes to its bare endpoint URL.
   */
  lemma RequestedUrlShape(req: Request)
    requires ValidRequest(req)
    ensures req.GetTransactions? ==>
      RequestedUrl(req) == BaseUrl + "/transactions" + TransactionsQuery(req.startDate, req.endDate, req.accountId)
    ensures !req.GetTransactions? ==> Success(RequestedUrl(req)) == GetEndpointUrl(EndpointOf(req))
  {
    EndpointUrlTable();
  }

  /**
   * The query construction of `GetTransactions(startDate, endDate, accountId)`:
   * one `Add` per argument that is present, then `ToString`.
   */
  method BuildTransactionsQuery(startDate: Option<DateTime>, endDate: Option<DateTime>, accountId: Option<int>)
    returns (queryString: string)
    requires startDate.Some? ==> ValidDateTime(startDate.value)
    requires endDate.Some? ==> ValidDateTime(endDate.value)
    ensures queryString == TransactionsQuery(startDate, endDate, accountId)
  {
    var queryBuilder := new QueryBuilder();
    if startDate.Some? { queryBuilder.Add("start_date", FormatDate(startDate.value)); }
    assert queryBuilder.added == StartDatePair(startDate);
    if endDate.Some? { queryBuilder.Add("end_date", FormatDate(endDate.value)); }
    assert queryBuilder.added == StartDatePair(startDate) + EndDatePair(endDate);
    if accountId.Some? { queryBuilder.Add("account_id", IntToString(accountId.value)); }
    assert queryBuilder.added == StartDatePair(startDate) + EndDatePair(endDate) + AccountIdPair(accountId);
    queryString := queryBuilder.ToString();
  }

  /**
   * `GetTransactions(startDate, endDate, accountId)` up to the HTTP call: the
   * URL it requests is the transactions endpoint followed by the query.
   */
  method GetTransactionsUrl(startDate: Option<DateTime>, endDate: Option<DateTime>, accountId: Option<int>)
    returns (url: string)
    requires startDate.Some? ==> ValidDateTime(startDate.value)
    requires endDate.Some? ==> ValidDateTime(endDate.value)
    ensures url == RequestedUrl(GetTransactions(startDate, endDate, accountId))
  {
    var queryString := BuildTransactionsQuery(startDate, endDate, accountId);
    var r := RequestUrl(Transactions, Some(queryString));
    url := r.value;
  }

  /** Without arguments the transactions URL is ".../transactions?" (the current month). */
  lemma BareTransactionsUrl()
    ensures RequestedUrl(GetTransactions(None, None, None)) == BaseUrl + "/transactions?"
  {
    assert TransactionsQueryPairs(None, None, None) == [];
  }

  /**
   * Splitting the transactions query after '?' on '&', and each piece on '=',
   * gives one escaped key and value per argument present, in argument order.
   */
  lemma TransactionsQueryRoundTrip(startDate: Option<DateTime>, endDate: Option<DateTime>, accountId: Option<int>)
    requires startDate.Some? ==> ValidDateTime(startDate.value)
    requires endDate.Some? ==> ValidDateTime(endDate.value)
    ensures var pairs := TransactionsQueryPairs(startDate, endDate, accountId);
      var q := Render(Entries(pairs));
      && (pairs == [] <==> q == "?")
      && (pairs != [] ==> |Split('&', q[1..])| == |pairs|)
      && (forall i :: 0 <= i < |pairs| ==> Split('=', Split('&', q[1..])[i]) == [Escape(pairs[i].0), Escape(pairs[i].1)])
  {
    var pairs := TransactionsQueryPairs(startDate, endDate, accountId);
    var entries := Entries(pairs);
    EntriesSplit(pairs, entries);
    if pairs != [] {
      assert Join('&', entries) != "" by {
        EntrySplit(pairs[0].0, pairs[0].1);
        assert |Entry(pairs[0].0, pairs[0].1)| >= 1;
      }
    }
  }

  /**
   * With every argument present the query reads, in clear,
   * "?start_date=yyyy-MM-dd&end_date=yyyy-MM-dd&account_id=<id>": dates, digits,
   * '-' and the keys are unreserved, so escaping leaves them unchanged.
   */
  lemma FullTransactionsQuery(startDate: DateTime, endDate: DateTime, accountId: int)
    requires ValidDateTime(startDate) && ValidDateTime(endDate)
    ensures TransactionsQuery(Some(startDate), Some(endDate), Some(accountId))
      == "?" + "start_date=" + FormatDate(startDate) + "&" + "end_date=" + FormatDate(endDate)
         + "&" + "account_id=" + IntToString(accountId)
  {
    var a, b, c := FormatDate(startDate), FormatDate(endDate), IntToString(accountId);
    var pairs := TransactionsQueryPairs(Some(startDate), Some(endDate), Some(accountId));
    assert pairs == [("start_date", a), ("end_date", b), ("account_id", c)];
    EntryInClear("start_date", a);
    EntryInClear("end_date", b);
    EntryInClear("account_id", c);
    var entries := Entries(pairs);
    assert entries[0] == "start_date=" + a;
    assert entries[1] == "end_date=" + b;
    assert entries[2] == "account_id=" + c;
    assert entries == ["start_date=" + a, "end_date=" + b, "account_id=" + c];
    JoinThree("start_date=" + a, "end_date=" + b, "account_id=" + c);
  }

  /** An entry whose key and value are unreserved text is stored in clear. */
  lemma EntryInClear(key: string, value: string)
    requires forall i :: 0 <= i < |key| ==> IsUnreserved(key[i])
    requires forall i :: 0 <= i < |value| ==> IsUnreserved(value[i])
    ensures Entry(key, value) == key + "=" + value
  {
    EscapeUnreserved(key);
    EscapeUnreserved(value);
  }

  lemma JoinThree(x: string, y: string, z: string)
    ensures Render([x, y, z]) == "?" + x + "&" + y + "&" + z
  {
    assert [x, y, z][1..] == [y, z];
    assert [y, z][1..] == [z];
    assert Join('&', [y, z]) == y + "&" + z;
    assert Join('&', [x, y, z]) == x + "&" + (y + "&" + z);
  }
}
