/** The mock catalog endpoint `GET /api/datasets`: a fixed list of five
    datasets, filtered by status and by a case-insensitive search. */
module DatasetsRoute {
  import opened Wrappers
  import opened Text

  datatype Status = Active | Inactive | Archived

  function StatusName(s: Status): string {
    match s
    case Active => "active"
    case Inactive => "inactive"
    case Archived => "archived"
  }

  /** `isDatasetStatus`: exactly the three status names are accepted. */
  function ParseStatus(value: string): (r: Option<Status>)
    ensures forall s :: r == Some(s) <==> StatusName(s) == value
  {
    if value == "active" then Some(Active)
    else if value == "inactive" then Some(Inactive)
    else if value == "archived" then Some(Archived)
    else None
  }

  datatype Dataset = Dataset(id: string, name: string, status: Status, description: string,
                             updatedAt: string, records: nat)

  const EdgeLogs: Dataset :=
    Dataset("edge-logs", "Edge Logs", Active,
            "CDN edge request and error " +
            "logs aggregated hourly.", "2024-06-01T12:15:00Z", 1283000)
  const AuthService: Dataset :=
    Dataset("auth-service", "Auth Service", Active,
            "Authentication service " +
            "latency and error metrics.", "2024-06-01T12:10:00Z", 842000)
  const BillingPipeline: Dataset :=
    Dataset("billing-pipeline", "Billing Pipeline", Inactive,
            "ETL pipeline metrics for " +
            "billing transformations.", "2024-05-28T18:45:00Z", 412000)
  const MobileApi: Dataset :=
    Dataset("mobile-api", "Mobile API", Active,
            "Mobile API request metrics " +
            "across regions.", "2024-06-01T11:55:00Z", 973000)
  const LegacyAnalytics: Dataset :=
    Dataset("legacy-analytics", "Legacy Analytics", Archived,
            "Deprecated analytics dataset " +
            "retained for reference.", "2024-04-15T09:00:00Z", 155000)

  /** `DATASETS`, in catalog order. */
  const Catalog: seq<Dataset> := [EdgeLogs, AuthService, BillingPipeline, MobileApi, LegacyAnalytics]

  /** The search matches the lower-cased name, description or id. */
  predicate MatchesSearch(d: Dataset, search: string) {
    Contains(ToLower(d.name), search) || Contains(ToLower(d.description), search) ||
    Contains(ToLower(d.id), search)
  }

  /** Whether a dataset passes the status filter (when there is one) and the
      search (when it is not empty). */
  predicate Selected(d: Dataset, status: Option<Status>, search: string) {
    (status.None? || d.status == status.value) && (search == "" || MatchesSearch(d, search))
  }

  /** `Array.prototype.filter` by `Selected`: the datasets that pass, in their
      original order. */
  function Select(ds: seq<Dataset>, status: Option<Status>, search: string): (r: seq<Dataset>)
    ensures |r| <= |ds|
    decreases |ds|
  {
    if |ds| == 0 then []
    else if Selected(ds[0], status, search) then [ds[0]] + Select(ds[1..], status, search)
    else Select(ds[1..], status, search)
  }

  /** The filter keeps a dataset exactly when it is in the input and passes. */
  lemma {:induction false} SelectMembers(ds: seq<Dataset>, status: Option<Status>, search: string)
    ensures forall d :: d in Select(ds, status, search) <==> d in ds && Selected(d, status, search)
    decreases |ds|
  {
    if |ds| > 0 {
      SelectMembers(ds[1..], status, search);
      assert ds == [ds[0]] + ds[1..];
    }
  }

  /** `a` is `b` with some elements dropped and none added or moved. */
  predicate IsSubsequence(a: seq<Dataset>, b: seq<Dataset>)
    decreases |b|
  {
    |a| == 0 ||
    (|b| > 0 && ((a[0] == b[0] && IsSubsequence(a[1..], b[1..])) || IsSubsequence(a, b[1..])))
  }

  lemma {:induction false} SelectIsSubsequence(ds: seq<Dataset>, status: Option<Status>, search: string)
    ensures IsSubsequence(Select(ds, status, search), ds)
    decreases |ds|
  {
    if |ds| > 0 {
      SelectIsSubsequence(ds[1..], status, search);
      if Selected(ds[0], status, search) {
        assert Select(ds, status, search)[1..] == Select(ds[1..], status, search);
      }
    }
  }

  /** Filtering by status and then by search is filtering once by both. */
  lemma {:induction false} SelectTwice(ds: seq<Dataset>, status: Option<Status>, search: string)
    ensures Select(Select(ds, status, ""), None, search) == Select(ds, status, search)
    decreases |ds|
  {
    if |ds| > 0 {
      SelectTwice(ds[1..], status, search);
      if Selected(ds[0], status, "") {
        assert ([ds[0]] + Select(ds[1..], status, ""))[1..] == Select(ds[1..], status, "");
      }
    }
  }

  /** With neither condition nothing is dropped. */
  lemma {:induction false} SelectAll(ds: seq<Dataset>)
    ensures Select(ds, None, "") == ds
    decreases |ds|
  {
    if |ds| > 0 {
      SelectAll(ds[1..]);
      assert ds == [ds[0]] + ds[1..];
    }
  }

  datatype ListResponse =
    | Invalid(httpStatus: int, message: string)
    | Listed(datasets: seq<Dataset>, total: int)

  const InvalidStatusMessage: string := "Invalid status. Use one of: active, inactive, archived."

  /** The search parameter after `trim` and `toLowerCase`; absent is empty. */
  function SearchOf(search: Option<string>): string {
    if search.None? then "" else ToLower(Trim(search.value))
  }

  /** The status parameter after `trim` and `toLowerCase`; an absent or empty
      parameter is no status. */
  function StatusParamOf(status: Option<string>): Option<string> {
    if status.None? || ToLower(Trim(status.value)) == "" then None
    else Some(ToLower(Trim(status.value)))
  }

  /** The status a listed response filters by: none, or the parsed parameter. */
  function StatusFilterOf(status: Option<string>): Option<Status> {
    var s := StatusParamOf(status);
    if s.Some? then ParseStatus(s.value) else None
  }

  /** The two `filter` passes of `GET`: by status when there is one, then by
      search when it is not empty. */
  function Filtered(ds: seq<Dataset>, status: Option<Status>, search: string): seq<Dataset> {
    var byStatus := if status.Some? then Select(ds, status, "") else ds;
    if search != "" then Select(byStatus, None, search) else byStatus
  }

  /** `GET`: reject an unknown status, then filter by status, then by search. */
  function List(search: Option<string>, status: Option<string>): (r: ListResponse)
    ensures r.Invalid? <==> StatusParamOf(status).Some? && ParseStatus(StatusParamOf(status).value).None?
    ensures r.Invalid? ==> r == Invalid(400, InvalidStatusMessage)
    ensures r.Listed? ==> r.total == |r.datasets|
  {
    var s := StatusParamOf(status);
    if s.Some? && ParseStatus(s.value).None? then Invalid(400, InvalidStatusMessage)
    else
      var filtered := Filtered(Catalog, StatusFilterOf(status), SearchOf(search));
      Listed(filtered, |filtered|)
  }

  /** The two passes are one filter by both conditions. */
  lemma FilteredIsSelection(ds: seq<Dataset>, status: Option<Status>, search: string)
    ensures Filtered(ds, status, search) == Select(ds, status, search)
  {
    if status.Some? {
      SelectTwice(ds, status, search);
      if search == "" {
        SelectTwice(ds, status, "");
        SelectAll(Select(ds, status, ""));
      }
    } else {
      SelectTwice(ds, None, search);
      SelectAll(ds);
    }
  }

  /** Soundness and completeness: a dataset is listed exactly when it is in the
      catalog, has the requested status, and matches the search; the listing
      keeps catalog order and `total` counts it. */
  lemma ListMembers(search: Option<string>, status: Option<string>)
    requires List(search, status).Listed?
    ensures forall d :: d in List(search, status).datasets <==>
              d in Catalog && Selected(d, StatusFilterOf(status), SearchOf(search))
    ensures IsSubsequence(List(search, status).datasets, Catalog)
    ensures List(search, status).total == |List(search, status).datasets|
  {
    FilteredIsSelection(Catalog, StatusFilterOf(status), SearchOf(search));
    SelectMembers(Catalog, StatusFilterOf(status), SearchOf(search));
    SelectIsSubsequence(Catalog, StatusFilterOf(status), SearchOf(search));
  }

  /** Any valid status, in any case and padding, lists only datasets of that status. */
  lemma ListByStatus(search: Option<string>, status: Option<string>, s: Status)
    requires StatusParamOf(status) == Some(StatusName(s))
    ensures List(search, status).Listed?
    ensures forall d | d in List(search, status).datasets :: d.status == s && d in Catalog
  {
    assert ParseStatus(StatusName(s)) == Some(s);
    ListMembers(search, status);
  }

  /** Without a search or a status the whole catalog is listed. */
  lemma ListEverything()
    ensures List(None, None) == Listed(Catalog, 5)
  {
  }

  /** Whitespace-only parameters filter nothing either. */
  lemma ListBlankParameters(search: string, status: string)
    requires IsBlank(search) && IsBlank(status)
    ensures List(Some(search), Some(status)) == Listed(Catalog, 5)
  {
    ListEverything();
  }

  /** A status outside the three names is rejected whatever the search. */
  lemma ListUnknownStatus(search: Option<string>, status: Option<string>)
    requires status == Some("deleted")
    ensures List(search, status) == Invalid(400, InvalidStatusMessage)
  {
    DeletedIsUnknown(status);
  }

  lemma DeletedIsUnknown(status: Option<string>)
    requires status == Some("deleted")
    ensures StatusParamOf(status) == Some("deleted") && ParseStatus("deleted").None?
  {
    assert Trim("deleted") == "deleted" by { TrimOfTrimmed("deleted"); }
    assert ToLower("deleted") == "deleted";
    assert "deleted"[0] != "active"[0] && "deleted"[0] != "archived"[0] && "deleted"[0] != "inactive"[0];
  }

  /** `ToLower` does not produce `c` from a string holding neither `c` nor its
      upper-case form. */
  lemma LowerLacks(s: string, c: char)
    requires 'a' <= c <= 'z' && c !in s && UpperChar(c) !in s
    ensures c !in ToLower(s)
  {
    forall i | 0 <= i < |s| ensures ToLower(s)[i] != c {
      assert s[i] != c && s[i] != UpperChar(c);
    }
  }

  /** A search holding a letter that a dataset lacks in both cases does not
      match that dataset. */
  lemma NoMatchWithoutLetter(d: Dataset, search: string, c: char)
    requires 'a' <= c <= 'z' && c in search
    requires c !in d.name && UpperChar(c) !in d.name
    requires c !in d.description && UpperChar(c) !in d.description
    requires c !in d.id && UpperChar(c) !in d.id
    ensures !MatchesSearch(d, search)
  {
    LowerLacks(d.name, c);
    LowerLacks(d.description, c);
    LowerLacks(d.id, c);
    MissingCharNotContained(ToLower(d.name), search, c);
    MissingCharNotContained(ToLower(d.description), search, c);
    MissingCharNotContained(ToLower(d.id), search, c);
  }

  /** The descriptions of the first two active datasets hold no `p` in either case. */
  lemma EdgeLogsTextLacksP()
    ensures 'p' !in "CDN edge request and error " + "logs aggregated hourly."
  {
  }

  lemma EdgeLogsTextLacksUpperP()
    ensures 'P' !in "CDN edge request and error " + "logs aggregated hourly."
  {
  }

  lemma AuthServiceTextLacksP()
    ensures 'p' !in "Authentication service " + "latency and error metrics."
  {
  }

  lemma AuthServiceTextLacksUpperP()
    ensures 'P' !in "Authentication service " + "latency and error metrics."
  {
  }

  /** The first two active datasets mention `api` in no letter case: neither
      holds a `p`. */
  lemma EdgeLogsLacksApi(search: string)
    requires search == "api"
    ensures !MatchesSearch(EdgeLogs, search)
  {
    assert search[1] == 'p';
    EdgeLogsTextLacksP();
    EdgeLogsTextLacksUpperP();
    assert EdgeLogs.description == "CDN edge request and error " + "logs aggregated hourly.";
    NoMatchWithoutLetter(EdgeLogs, search, 'p');
  }

  lemma AuthServiceLacksApi(search: string)
    requires search == "api"
    ensures !MatchesSearch(AuthService, search)
  {
    assert search[1] == 'p';
    AuthServiceTextLacksP();
    AuthServiceTextLacksUpperP();
    assert AuthService.description == "Authentication service " + "latency and error metrics.";
    NoMatchWithoutLetter(AuthService, search, 'p');
  }

  /** The mobile API dataset's id contains `api` from index 7. */
  lemma MobileApiMatches(search: string)
    requires search == "api"
    ensures MatchesSearch(MobileApi, search)
  {
    var id := MobileApi.id;
    assert ToLower(id) == id;
    assert id[7..10] == search;
    ContainsIff(id, search);
    assert OccursAt(id, search, 7);
  }

  /** Of the catalog, only the mobile API dataset is active and matches `api`. */
  lemma SelectActiveApi()
    ensures Select(Catalog, Some(Active), "api") == [MobileApi]
  {
    var st := Some(Active);
    EdgeLogsLacksApi("api");
    AuthServiceLacksApi("api");
    MobileApiMatches("api");
    assert Select(Catalog[4..], st, "api") == [];
    assert Select(Catalog[3..], st, "api") == [MobileApi];
    assert Select(Catalog[2..], st, "api") == [MobileApi];
    assert Select(Catalog[1..], st, "api") == [MobileApi];
  }

  /** The parameters `api` and `active` are already trimmed and lower-case. */
  lemma ApiSearch(search: Option<string>)
    requires search == Some("api")
    ensures SearchOf(search) == "api"
  {
    assert Trim("api") == "api" by { TrimOfTrimmed("api"); }
    assert ToLower("api") == "api";
  }

  lemma ActiveStatus(status: Option<string>)
    requires status == Some("active")
    ensures StatusFilterOf(status) == Some(Active)
  {
    assert Trim("active") == "active" by { TrimOfTrimmed("active"); }
    assert ToLower("active") == "active";
  }

  /** `search=api&status=active` lists exactly the mobile API dataset. */
  lemma ListApiActive(search: Option<string>, status: Option<string>)
    requires search == Some("api") && status == Some("active")
    ensures List(search, status) == Listed([MobileApi], 1)
  {
    ApiSearch(search);
    ActiveStatus(status);
    FilteredIsSelection(Catalog, Some(Active), "api");
    SelectActiveApi();
  }
}
