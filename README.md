# zonemaster-api in Dafny

This project models the core of zonemaster-api. The service runs a DNS check on a domain by calling a Zonemaster engine over JSON-RPC 2.0. It stores the check and the engine's findings in two tables, `dns_checks` and `dns_results`, and serves them under `/api/v1/checks`.

The model has six modules:

- `Wrappers` (wrappers.dfy): `Option`, `Result`, and `Prepend`, which puts finished items in front of a result that may have failed.
- `Json` (json.dfy): a decoded JSON value, and Python's type name for each kind of value.
- `Store` (store.dfy): the two tables, as a `Tables` value and as the `Database` class.
  - The class's `Create` and `CreateBulk` methods change its `checks` and `findings` fields.
  - The reads are functions of the tables: one check with its findings, a page of checks with their findings, and a page of checks with finding counts.
  - Ids are SQLite rowids. Nothing is deleted and a refused batch is rolled back, so the i-th row of each table has id i + 1. `WellFormed` states this, together with the foreign key from findings to checks.
- `Schemas` (schemas.dfy): the 1–255 character rule on domains, and the three response records with their defaults.
- `Zonemaster` (zonemaster.dfy): the service. It builds the request envelope, reads the reply, and normalises the findings with `ParseResults`, whose loop is proved equal to `Normalise`. It also holds the orchestration. `Run` specifies the orchestration and `RunCheckAndSave` implements it on a `Database`.
- `Endpoints` (endpoints.dfy): the three routes.
  - Create returns 201, 422 or 503.
  - Get returns 200 or 404 with "DNS check not found".
  - Get and list answer 500 for a check_id, skip or limit outside SQLite's signed 64-bit range. SQLite cannot bind such a value, and the route does not catch the error.
  - List takes skip and limit, which default to 0 and 100.

Some things are inputs to the model rather than part of it:

- The HTTP exchange with the engine is the input `Downstream`: a transport error, a non-2xx status, or a 2xx body that decodes to a JSON object.
- The timestamp the database assigns is the input `now`.
- Python's `str()` of a JSON value is the input `render`.

Some behaviours of the code are worth knowing:

- The check row is committed before the engine is called. Any later failure leaves it in place with no findings (`RunFailureLeavesOrphan`).
- Any reply with an `"error"` member fails, even one that also has `"result"`. A reply with neither member counts as an empty result list. Both are departures from section 5 of the JSON-RPC 2.0 Specification.
- The route adds "DNS check failed: " in front of the service's message. Both of the service's failure messages already start with a prefix of their own:
  - "DNS check failed: " for a Zonemaster error reply or any other error inside the service;
  - "Failed to connect to Zonemaster API: " for a transport error or a non-2xx status.

  So an error reply from the engine reaches the client as "DNS check failed: DNS check failed: Zonemaster API error: …" (`ErrorEnvelopeDetail`).
- The service checks the domain again with `DNSCheckCreate(domain=...)` before it creates anything. The model gives that path a result, `InvalidDomain`. Through the route it cannot happen, because the route has already rejected the body with 422.
- The text columns have text affinity:
  - a string is stored as is, an integer as its decimal text, and a boolean as 1 or 0;
  - a list, a dict, or an integer outside the signed 64-bit range cannot be bound;
  - null breaks NOT NULL.
  - All four values are bound before the INSERT runs. So a value that cannot be bound is reported before any null, even when the null is in an earlier column (`Store.BindingBeforeNotNull`).

  So a finding whose level, module, tag or message is null, a list, a dict or an out-of-range integer makes the whole batch fail. The check it belongs to is still left in place.

## Model

| member | source | states |
|---|---|---|
| Zonemaster.Envelope | app/services/zonemaster_service.py:17-25 | the payload is a JSON-RPC 2.0 request object as section 4 of the JSON-RPC 2.0 Specification defines it, with id 1, calling start_domain_test on exactly the given domain |
| Zonemaster.EnvelopeFixed | app/services/zonemaster_service.py:17-25 | only params.domain varies between payloads: same members, same jsonrpc, method and id, profile always "default"; the payloads of two domains are equal exactly when the domains are |
| Zonemaster.Fetch | app/services/zonemaster_service.py:33-42 | the result is a connection failure exactly when the exchange did not give a 2xx body; a body fails exactly when it has an "error" member |
| Zonemaster.StandardResponsesRead | app/services/zonemaster_service.py:38-42 | on a response that follows section 5 of the JSON-RPC 2.0 Specification, success returns the result member and an error member becomes a "Zonemaster API error" failure carrying that member |
| Zonemaster.ErrorMemberWins | app/services/zonemaster_service.py:38-39 | an "error" member makes the call fail whatever else the reply holds |
| Zonemaster.MissingResultIsEmpty | app/services/zonemaster_service.py:42 | a reply with neither "error" nor "result" gives an empty list of findings |
| Zonemaster.MessagePrefixes | app/services/zonemaster_service.py:92-97 | the service's message starts with "Failed to connect to Zonemaster API: " exactly for transport and status errors, and with "DNS check failed: " exactly for every other failure |
| Zonemaster.NormaliseItemsShape | app/services/zonemaster_service.py:44-60 | normalising fails exactly when some item is not a mapping; otherwise it gives one record per item, in order, each built from that item |
| Zonemaster.NormaliseEntryFields | app/services/zonemaster_service.py:52-57 | each of the four keys present is copied unchanged; a missing level is "INFO", a missing module or tag "UNKNOWN", a missing message the str() of the whole finding |
| Zonemaster.CompleteFindingStored | app/services/zonemaster_service.py:52-57 | a finding whose four keys are all strings is stored as a row holding exactly those four strings |
| Zonemaster.ResultMemberShapes | app/services/zonemaster_service.py:48 | a scalar result member cannot be iterated (TypeError with its type name); an empty dict or empty string gives no findings |
| Zonemaster.ParseResults | app/services/zonemaster_service.py:44-60 | the loop computes exactly the normaliser's result, failing at the first item that is not a mapping |
| Zonemaster.RunCheckAndSave | app/services/zonemaster_service.py:62-97 | the new tables and the result are exactly those of the specified orchestration: validate, insert the check, call, normalise, bulk insert only a non-empty list, reload |
| Zonemaster.RunFailureLeavesOrphan | app/services/zonemaster_service.py:70-85 | after a valid domain, any failure leaves exactly the new check behind, with no findings, and nothing else changed |
| Zonemaster.RunSuccess | app/services/zonemaster_service.py:77-90 | on success the findings grow by exactly the stored rows of the normalised list, the tables stay well formed, and the returned view is the reloaded check with exactly those rows |
| Zonemaster.RunKeepsOtherChecks | app/services/zonemaster_service.py:62-97 | a run keeps the tables well formed and leaves every other check, findings included, as it was |
| Store.RowOf | app/crud/dns_result.py:14-20 | a row is produced exactly when all four values can be stored in their text columns, ints only within the signed 64-bit range; a NOT NULL refusal is reported exactly when all four values could be bound |
| Store.BindingBeforeNotNull | app/crud/dns_result.py:14-24 | a list in the message column is reported as unbindable even though the level is null; with nothing unbindable, the null level is the NOT NULL refusal |
| Store.StagedShape | app/crud/dns_result.py:13-22 | a batch succeeds exactly when every record is storable; then one row per record, in input order, with consecutive ids, the given check id and the record's four values as text |
| Store.EmptyBatch | app/crud/dns_result.py:13-24 | an empty batch stores nothing |
| Store.Database.Create | app/crud/dns_check.py:9-14 | appends one check with the next id and the insert's timestamp, returns it, and keeps the tables well formed |
| Store.InsertedAddsOne | app/crud/dns_check.py:9-14 | the new id is fresh, the new check reads back with no findings, every other id reads back unchanged, and the tables stay well formed |
| Store.Database.CreateBulk | app/crud/dns_result.py:6-27 | the loop returns exactly the rows the batch specifies; on success they are appended after the existing findings, and on refusal nothing changes |
| Store.BulkInsertedAppends | app/crud/dns_result.py:6-27 | a stored batch appends its rows after the existing findings, keeps the tables well formed, and the check's findings become its old findings followed by the batch |
| Store.BulkInsertedKeepsOthers | app/crud/dns_result.py:6-27 | a batch for one check leaves every other check and its findings as they were |
| Store.FindCheck | app/crud/dns_check.py:16-19 | a result is a stored check with the requested id; no result means no stored check has that id |
| Store.FindingsOf | app/crud/dns_check.py:17 | the loaded findings are exactly the stored findings that refer to the check, none invented |
| Store.LookupById | app/crud/dns_check.py:16-19 | on well-formed tables a check is found exactly for ids 1..n, and it is the check with that id together with all its findings |
| Store.CountIsFindings | app/crud/dns_check.py:48-51 | the count of the outer join equals the number of findings the check's relationship loads, zero when there are none |
| Store.NewestFirstSorts | app/crud/dns_check.py:54 | the ordering is by created_at descending and is a permutation of the checks |
| Store.NewestFirstMembers | app/crud/dns_check.py:54 | the ordered list holds exactly the stored checks |
| Store.NewestFirstDistinct | app/crud/dns_check.py:54 | ordering keeps distinct ids distinct |
| Store.NewestFirstOfIncreasing | app/crud/dns_check.py:54 | when checks were created at increasing times, the ordering is their reverse insertion order |
| Store.Page | app/crud/dns_check.py:52-53 | a page is a contiguous run of the ordered rows starting at the offset, never longer than the input |
| Store.PageSize | app/crud/dns_check.py:52-53 | with skip, limit >= 0 a page has min(limit, max(0, n - skip)) rows; a negative skip acts as 0 and a negative limit as no limit |
| Store.ListingProperties | app/crud/dns_check.py:43-55 | a page has the expected size, is newest first, lists each check at most once and only stored checks |
| Store.ListingOfIncreasing | app/crud/dns_check.py:52-54 | with increasing timestamps, row k of a page skipping s rows is the check inserted (s + k + 1)-th from last |
| Store.WithFindings | app/crud/dns_check.py:21-35 | each entry of get_multi is the listed check with all its findings |
| Store.WithCounts | app/crud/dns_check.py:37-65 | each entry of get_multi_with_count is the listed check's id, domain and created_at with the number of its findings |
| Store.WithCountsOrder | app/crud/dns_check.py:54 | the counted page is newest first with distinct ids |
| Schemas.CheckViewFrom | app/schemas/dns_check.py:17-23 | the fields are copied and results defaults to the empty list |
| Schemas.SummaryViewFrom | app/schemas/dns_check.py:25-31 | the fields are copied and results_count defaults to 0 |
| Schemas.CheckViewOf | app/schemas/dns_check.py:17-23 | the response carries the check's id, domain and created_at and one finding view per loaded finding, in order |
| Endpoints.CreateDnsCheck | app/api/v1/endpoints/dns_check.py:15-36 | the response and the new tables are exactly those the create route specifies |
| Endpoints.CreateOutcomes | app/api/v1/endpoints/dns_check.py:15-36 | 422 exactly for a domain outside 1..255 characters, with nothing stored; 503 with a "DNS check failed: " detail leaving the new check without findings; 201 with the new check's id, domain and timestamp; tables stay well formed |
| Endpoints.DomainLengthBounds | tests/api/v1/test_dns_check.py:286-294 | an empty domain, or one longer than 255 characters, gets 422 with the tables untouched; a domain of 1 to 255 characters is never refused |
| Endpoints.ErrorEnvelopeDetail | app/api/v1/endpoints/dns_check.py:32-36 | an engine error reply gives 503 with "DNS check failed: " twice, then "Zonemaster API error: " and the error member |
| Endpoints.UnreachableEngineDetail | app/services/zonemaster_service.py:92-94 | an unreachable engine or a non-2xx status gives 503 with "DNS check failed: Failed to connect to Zonemaster API: " and the transport's message |
| Endpoints.CreateReturnsEveryFinding | tests/api/v1/test_dns_check.py:94-113 | a reply listing complete findings gives 201 with every finding, in order, with its four texts as sent and ids following those already stored |
| Endpoints.GetFoundOrNotFound | app/api/v1/endpoints/dns_check.py:38-52 | 200 exactly for a stored check's id, with that check's id, domain and created_at and all its findings in order; 404 with "DNS check not found" exactly for any other id in the signed 64-bit range; 500 exactly for an id outside it |
| Endpoints.GetAfterCreate | tests/api/v1/test_dns_check.py:185-200 | reading a check right after a successful create returns 200 with exactly what the create returned |
| Endpoints.OutOfRangeNumberRefused | app/crud/dns_result.py:24 | a finding whose level is 2^63 makes the create answer 503 with the doubled prefix and the overflow message, leaving only the new, empty check |
| Endpoints.BatchWithRefusalFails | app/models/dns_result.py:18-21 | a finding value the database refuses makes the whole create fail with 503 |
| Endpoints.ListDnsChecks | app/api/v1/endpoints/dns_check.py:54-67 | listing answers 200 exactly when the skip and limit in effect lie in the signed 64-bit range, and 500 otherwise |
| Endpoints.ListDefaults | app/api/v1/endpoints/dns_check.py:56-57 | without query parameters the list is skip 0, limit 100, and holds min(100, n) checks |
| Endpoints.ListSize | app/crud/dns_check.py:52-53 | with skip, limit >= 0 the list has min(limit, max(0, n - skip)) entries |
| Endpoints.ListOrder | app/crud/dns_check.py:54 | entries are newest first and no check appears twice |
| Endpoints.Summaries | app/api/v1/endpoints/dns_check.py:66-67 | one response model per CRUD row, in order: entry k is listing row k's id, domain and created_at with the number of findings that refer to it |
| Endpoints.ListEntries | app/api/v1/endpoints/dns_check.py:66-67 | entry k is row k of the newest-first page the CRUD query returns for the skip and limit in effect: that stored check's id, domain and created_at with the number of findings that refer to it |
| Endpoints.ListRecentFirst | app/api/v1/endpoints/dns_check.py:54-67 | when checks were created at increasing times, entry k of the list skipping s rows is the check created (s + k + 1)-th from last, with its finding count |

## Left out

- The HTTP client: the timeout, headers, URL and connection handling are not modelled. What the call produced is an input, and only the three outcomes above are distinguished.
- A 2xx body that is not JSON, or that decodes to something other than an object, is not modelled. The code would then fail with a decoding or type error, so the create gives 503 "DNS check failed: …".
- Floating-point JSON numbers are not modelled. Numbers are integers.
- Python's str() of a value is the parameter `render`, and is not defined here.
- Json.Value: an object is a map, so the order of its keys is lost. Python's str() prints keys in document order, so two findings with the same keys in a different order can get different default messages in the code. In the model `render` gives them the same message.
- Json.Value: strings are sequences of Unicode scalar values, so a lone surrogate that the JSON decoder accepts (such as "\ud800") cannot be written. In the code such a value makes SQLite's text encoding fail when binding, which gives 503 and leaves the new check without findings. The model has no input for that path.
- Zonemaster.FaultText: the messages of exceptions that Python, Pydantic and SQLite raise are short forms of them, not their exact texts. The engine error text is exact.
- Async execution, sessions and concurrent requests are not modelled. The database is one sequence of operations.
- A database that is down or refuses the check insert is not modelled.
- Store.NewestFirst: rows with equal created_at keep insertion order. SQL leaves their order unspecified.
- Store.FindingsOf: a check's findings come back in insertion order. Neither the relationship nor the eager load asks for an order, so this is what SQLite's scan gives in practice, not what SQL promises.
- Store.Database.CreateBulk: stops at the first record that has a value the database would refuse, where the code adds every row and the database refuses at commit. Either way no row is written. When several records have refused values, the database may report a different one of them.
- Store.Database.Create: ids are unbounded, and SQLite refusing a new row once the rowid reaches 2^63 - 1 is not modelled. Endpoints.GetAfterCreate therefore requires fewer than 2^63 - 1 stored checks.
- The String(50)/String(100)/String(255) column lengths are not enforced, because SQLite does not enforce them.
- The `ondelete="CASCADE"` delete path is not modelled, because no operation of the core deletes anything.
- FastAPI's 422 error body is not modelled. Only its status is.
- Endpoints.ListDnsChecks: the query parameters are integers, and a value FastAPI cannot parse as an integer (a 422) is not modelled. The same holds for Endpoints.GetDnsCheck's path parameter.
