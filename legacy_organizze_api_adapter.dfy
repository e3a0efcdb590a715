/**
 * The request URLs of the older API adapter (Adapter/OrganizzeAPIAdapter.cs).
 * It has the same private `Endpoint` enum and the same switch, but its
 * exception message is in Portuguese and it never appends a query string:
 * its `GetTransactions` takes no arguments.
 */
module LegacyOrganizzeApi {
  import opened Wrappers
  import OrganizzeApi

  type Endpoint = OrganizzeApi.Endpoint

  const BaseUrl: string := "https://api.organizze.com.br/rest/v2"

  /** `GetEndpointUrl`: the base URL, '/', and the endpoint's path, or `ArgumentException`. */
  function GetEndpointUrl(e: Endpoint): (r: Result<string, Exception>)
    ensures r.Success? <==> OrganizzeApi.IsNamedEndpoint(e)
    ensures !OrganizzeApi.IsNamedEndpoint(e) ==> r == Failure(ArgumentException("Endpoint desconhecido"))
  {
    var endpointPath :=
      if e == OrganizzeApi.CreditCards then Some("credit_cards")
      else if e == OrganizzeApi.Categories then Some("categories")
      else if e == OrganizzeApi.Accounts then Some("accounts")
      else if e == OrganizzeApi.Transactions then Some("transactions")
      else None;
    match endpointPath
    case Some(path) => Success(BaseUrl + "/" + path)
    case None => Failure(ArgumentException("Endpoint desconhecido"))
  }

  /** The URL of each named endpoint. */
  lemma EndpointUrlTable()
    ensures GetEndpointUrl(OrganizzeApi.CreditCards) == Success(BaseUrl + "/credit_cards")
    ensures GetEndpointUrl(OrganizzeApi.Categories) == Success(BaseUrl + "/categories")
    ensures GetEndpointUrl(OrganizzeApi.Accounts) == Success(BaseUrl + "/accounts")
    ensures GetEndpointUrl(OrganizzeApi.Transactions) == Success(BaseUrl + "/transactions")
  {
    assert BaseUrl + "/" + "credit_cards" == BaseUrl + "/credit_cards";
    assert BaseUrl + "/" + "categories" == BaseUrl + "/categories";
    assert BaseUrl + "/" + "accounts" == BaseUrl + "/accounts";
    assert BaseUrl + "/" + "transactions" == BaseUrl + "/transactions";
  }

  /** Both adapters map every enum value alike: the same URL, or an exception in both. */
  lemma SameEndpointUrls(e: Endpoint)
    ensures GetEndpointUrl(e).Success? == OrganizzeApi.GetEndpointUrl(e).Success?
    ensures GetEndpointUrl(e).Success? ==> GetEndpointUrl(e).value == OrganizzeApi.GetEndpointUrl(e).value
  {
    assert BaseUrl == OrganizzeApi.BaseUrl;
  }

  /** Distinct endpoints are sent to distinct URLs. */
  lemma EndpointUrlsDistinct(e1: Endpoint, e2: Endpoint)
    requires OrganizzeApi.IsNamedEndpoint(e1) && OrganizzeApi.IsNamedEndpoint(e2) && e1 != e2
    ensures GetEndpointUrl(e1).value != GetEndpointUrl(e2).value
  {
    SameEndpointUrls(e1);
    SameEndpointUrls(e2);
    OrganizzeApi.EndpointUrlsDistinct(e1, e2);
  }

  /** The four requests of the older adapter; none of them takes an argument. */
  datatype Request = GetCategories | GetTransactions | GetAccounts | GetCreditCards

  function EndpointOf(req: Request): Endpoint
  {
    match req
    case GetCategories => OrganizzeApi.Categories
    case GetTransactions => OrganizzeApi.Transactions
    case GetAccounts => OrganizzeApi.Accounts
    case GetCreditCards => OrganizzeApi.CreditCards
  }

  /** `GetEndpointData` requests the endpoint URL as it is. */
  function RequestedUrl(req: Request): string
  {
    GetEndpointUrl(EndpointOf(req)).value
  }

  /** No request of the older adapter carries a query string, not even a bare '?'. */
  lemma NoQueryString(req: Request)
    ensures Success(RequestedUrl(req)) == GetEndpointUrl(EndpointOf(req))
    ensures '?' !in RequestedUrl(req)
  {
    assert '?' !in BaseUrl;
    var path := RequestedUrl(req)[|BaseUrl|..];
    assert RequestedUrl(req) == BaseUrl + path;
    assert '?' !in path;
  }

  /** The corresponding request of the newer adapter. */
  function CurrentRequest(req: Request): OrganizzeApi.Request
  {
    match req
    case GetCategories => OrganizzeApi.GetCategories
    case GetTransactions => OrganizzeApi.GetTransactions(None, None, None)
    case GetAccounts => OrganizzeApi.GetAccounts
    case GetCreditCards => OrganizzeApi.GetCreditCards
  }

  /**
   * Both adapters request the same URL, except that the newer one's
   * argument-less transactions request ends in the empty query "?".
   */
  lemma AgreesWithCurrentAdapter(req: Request)
    ensures !req.GetTransactions? ==> OrganizzeApi.RequestedUrl(CurrentRequest(req)) == RequestedUrl(req)
    ensures req.GetTransactions? ==> OrganizzeApi.RequestedUrl(CurrentRequest(req)) == RequestedUrl(req) + "?"
  {
    SameEndpointUrls(EndpointOf(req));
    OrganizzeApi.RequestedUrlShape(CurrentRequest(req));
    if req.GetTransactions? {
      OrganizzeApi.BareTransactionsUrl();
      OrganizzeApi.EndpointUrlTable();
      assert OrganizzeApi.BaseUrl + "/transactions?" == OrganizzeApi.BaseUrl + "/transactions" + "?";
    }
  }
}
