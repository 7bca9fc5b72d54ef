/**
 * The three routes under /api/v1/checks: create a check, read one check,
 * list checks. A response is a status with either a body or a detail.
 */
module Endpoints {
  import opened Wrappers
  import opened Json
  import opened Store
  import opened Schemas
  import opened Zonemaster

  const StatusOk := 200
  const StatusCreated := 201
  const StatusNotFound := 404
  const StatusUnprocessable := 422
  const StatusServerError := 500
  const StatusUnavailable := 503

  const NotFoundDetail := "DNS check not found"
  const DefaultSkip := 0
  const DefaultLimit := 100

  datatype HttpResponse<T> =
    | Ok(status: int, body: T)
    | Problem(status: int, detail: string)  // an HTTPException with its detail
    | Rejected(status: int)                 // the request body failed validation; FastAPI's error body is not modelled
    | Crashed(status: int)                  // an exception the route does not catch

  /** The tables after a request, and the response it got. */
  datatype Exchange<T> = Exchange(tables: Tables, response: HttpResponse<T>)

  // ---------------------------------------------------------------------
  // POST /
  // ---------------------------------------------------------------------

  /**
   * create_dns_check: the body is validated as DNSCheckCreate first (422);
   * otherwise the service runs, and any exception becomes 503 with the
   * service's message behind "DNS check failed: ".
   */
  function HandleCreate(t: Tables, domain: string, d: Downstream, now: nat, render: Value -> string): Exchange<CheckView>
  {
    if !ValidDomain(domain) then Exchange(t, Rejected(StatusUnprocessable))
    else
      var o := Run(t, domain, d, now, render);
      match o.result
      case Success(view) => Exchange(o.tables, Ok(StatusCreated, view))
      case Failure(e) => Exchange(o.tables, Problem(StatusUnavailable, CheckPrefix + Message(e, render)))
  }

  method CreateDnsCheck(db: Database, domain: string, d: Downstream, now: nat, render: Value -> string)
    returns (response: HttpResponse<CheckView>)
    requires db.Valid()
    modifies db
    ensures db.Valid()
    ensures Exchange(db.State(), response) == HandleCreate(old(db.State()), domain, d, now, render)
  {
    if !ValidDomain(domain) {
      return Rejected(StatusUnprocessable);
    }
    var r := RunCheckAndSave(db, domain, d, now, render);
    match r
    case Success(view) =>
      response := Ok(StatusCreated, view);
    case Failure(e) =>
      response := Problem(StatusUnavailable, CheckPrefix + Message(e, render));
  }

  /**
   * The three outcomes of a create: 422 exactly for a domain outside 1..255
   * characters, with nothing stored; 503 with the "DNS check failed: "
   * prefix, leaving the new check behind without findings; or 201 with the
   * new check, whose id is the next one.
   */
  lemma CreateOutcomes(t: Tables, domain: string, d: Downstream, now: nat, render: Value -> string)
    requires WellFormed(t)
    ensures var x := HandleCreate(t, domain, d, now, render);
      && (x.response.Rejected? <==> !ValidDomain(domain))
      && (x.response.Rejected? ==> x.response.status == StatusUnprocessable && x.tables == t)
      && (x.response.Problem? ==>
            && x.response.status == StatusUnavailable
            && CheckPrefix <= x.response.detail
            && Lookup(x.tables, |t.checks| + 1) == Some(CheckWithFindings(CheckRow(|t.checks| + 1, domain, now), [])))
      && (x.response.Ok? ==>
            && x.response.status == StatusCreated
            && x.response.body.id == |t.checks| + 1
            && x.response.body.domain == domain
            && x.response.body.createdAt == now)
      && WellFormed(x.tables)
  {
    if ValidDomain(domain) {
      var o := Run(t, domain, d, now, render);
      if o.result.Failure? {
        RunFailureLeavesOrphan(t, domain, d, now, render);
        InsertedAddsOne(t, domain, now);
      } else {
        RunSuccess(t, domain, d, now, render);
      }
    }
  }

  /** The empty domain and any domain over 255 characters get 422 before anything is stored; lengths 1 to 255 pass. */
  lemma DomainLengthBounds(t: Tables, d: Downstream, now: nat, render: Value -> string, domain: string)
    ensures HandleCreate(t, "", d, now, render) == Exchange(t, Rejected(StatusUnprocessable))
    ensures |domain| > MaxDomainLength ==> HandleCreate(t, domain, d, now, render) == Exchange(t, Rejected(StatusUnprocessable))
    ensures MinDomainLength <= |domain| <= MaxDomainLength ==> !HandleCreate(t, domain, d, now, render).response.Rejected?
  {
  }

  /**
   * An engine reply with an "error" member is wrapped twice: the service
   * prefixes "DNS check failed: " and the route prefixes it again.
   */
  lemma ErrorEnvelopeDetail(t: Tables, domain: string, reply: map<string, Value>, now: nat, render: Value -> string)
    requires ValidDomain(domain) && "error" in reply
    ensures HandleCreate(t, domain, Body(reply), now, render).response
            == Problem(StatusUnavailable, CheckPrefix + CheckPrefix + RpcErrorPrefix + render(reply["error"]))
  {
    var e := CheckFailed(RpcError(reply["error"]));
    assert Analyse(Body(reply), render) == Failure(e);
    assert Run(t, domain, Body(reply), now, render).result == Failure(e);
  }

  /** An engine that cannot be reached gives 503 with both prefixes and the transport's own message. */
  lemma UnreachableEngineDetail(t: Tables, domain: string, d: Downstream, now: nat, render: Value -> string)
    requires ValidDomain(domain) && !d.Body?
    ensures HandleCreate(t, domain, d, now, render).response
            == Problem(StatusUnavailable, CheckPrefix + ConnectPrefix + d.detail)
  {
  }

  /** A finding as the engine reports it: a mapping with the four keys, each a string. */
  predicate EngineFinding(v: Value)
  {
    && v.Object?
    && "level" in v.fields && v.fields["level"].Str?
    && "module" in v.fields && v.fields["module"].Str?
    && "tag" in v.fields && v.fields["tag"].Str?
    && "message" in v.fields && v.fields["message"].Str?
  }

  /**
   * A successful reply whose result lists complete findings gives 201 with
   * every finding, in the engine's order, its four texts as sent and ids
   * following the findings already stored.
   */
  lemma CreateReturnsEveryFinding(t: Tables, domain: string, reply: map<string, Value>, now: nat, render: Value -> string)
    requires WellFormed(t) && ValidDomain(domain)
    requires "error" !in reply && "result" in reply && reply["result"].Array?
    requires forall i :: 0 <= i < |reply["result"].items| ==> EngineFinding(reply["result"].items[i])
    ensures var items := reply["result"].items;
      var r := HandleCreate(t, domain, Body(reply), now, render).response;
      && r.Ok? && r.status == StatusCreated
      && r.body.id == |t.checks| + 1 && r.body.domain == domain
      && |r.body.results| == |items|
      && forall k :: 0 <= k < |items| ==>
           EngineFinding(items[k]) &&
           r.body.results[k] == FindingView(|t.findings| + 1 + k, items[k].fields["level"].s, items[k].fields["module"].s,
                                             items[k].fields["tag"].s, items[k].fields["message"].s)
  {
    var items := reply["result"].items;
    var n := |t.checks| + 1;
    NormaliseItemsShape(items, render);
    var records := NormaliseItems(items, render).value;
    assert Analyse(Body(reply), render) == Success(records);
    forall i | 0 <= i < |records|
      ensures StorableFinding(records[i])
    {
      NormaliseEntryFields(items[i].fields, render);
    }
    StagedShape(n, |t.findings| + 1, records);
    RunSuccess(t, domain, Body(reply), now, render);
    var rows := Staged(n, |t.findings| + 1, records).value;
    var r := HandleCreate(t, domain, Body(reply), now, render).response;
    forall k | 0 <= k < |items|
      ensures EngineFinding(items[k])
      ensures r.body.results[k] == FindingView(|t.findings| + 1 + k, items[k].fields["level"].s, items[k].fields["module"].s,
                                               items[k].fields["tag"].s, items[k].fields["message"].s)
    {
      NormaliseEntryFields(items[k].fields, render);
      assert r.body.results[k] == FindingViewOf(rows[k]);
    }
  }

  /**
   * A finding whose level is 2^63, one past SQLite's INTEGER range, cannot
   * be bound: the create answers 503 and only the new, empty check remains.
   */
  lemma OutOfRangeNumberRefused(t: Tables, domain: string, now: nat, render: Value -> string)
    requires WellFormed(t) && ValidDomain(domain)
    ensures var f := Object(map["level" := Number(MaxInt64 + 1), "module" := Str("M"), "tag" := Str("T"), "message" := Str("x")]);
      var x := HandleCreate(t, domain, Body(map["result" := Array([f])]), now, render);
      && x.response == Problem(StatusUnavailable, CheckPrefix + CheckPrefix + "Python int too large to convert to SQLite INTEGER")
      && x.tables == Inserted(t, domain, now)
  {
    var f := Object(map["level" := Number(MaxInt64 + 1), "module" := Str("M"), "tag" := Str("T"), "message" := Str("x")]);
    var record := NormaliseEntry(f.fields, render);
    assert record == NewFinding(Number(MaxInt64 + 1), Str("M"), Str("T"), Str("x"));
    assert [f][1..] == [];
    assert NormaliseItems([f][1..], render) == Success([]);
    assert [record] + [] == [record];
    assert Normalise(Array([f]), render) == Success([record]);
    assert RowOf(|t.findings| + 1, |t.checks| + 1, record) == Failure(TooLarge("level"));
    assert Staged(|t.checks| + 1, |t.findings| + 1, [record]) == Failure(TooLarge("level"));
    assert CheckPrefix + (CheckPrefix + "Python int too large to convert to SQLite INTEGER")
        == CheckPrefix + CheckPrefix + "Python int too large to convert to SQLite INTEGER";
  }

  // ---------------------------------------------------------------------
  // GET /{check_id}
  // ---------------------------------------------------------------------

  /**
   * get_dns_check: the check with its findings, or 404 when no check has
   * the id. An id outside SQLite's 64-bit range cannot be bound, and the
   * route does not catch that error.
   */
  function GetDnsCheck(t: Tables, checkId: int): HttpResponse<CheckView>
  {
    if !InInt64(checkId) then Crashed(StatusServerError)
    else
      match Lookup(t, checkId)
      case None => Problem(StatusNotFound, NotFoundDetail)
      case Some(c) => Ok(StatusOk, CheckViewOf(c))
  }

  /**
   * 200 exactly for the id of a stored check, with that check and every
   * finding referring to it; 404 with "DNS check not found" for any other
   * id SQLite can bind; 500 for an id it cannot.
   */
  lemma GetFoundOrNotFound(t: Tables, checkId: int)
    requires WellFormed(t)
    ensures GetDnsCheck(t, checkId).Ok? <==> InInt64(checkId) && 1 <= checkId <= |t.checks|
    ensures GetDnsCheck(t, checkId).Ok? ==>
              var v := GetDnsCheck(t, checkId).body;
              var fs := FindingsOf(t.findings, checkId);
              && GetDnsCheck(t, checkId).status == StatusOk
              && v.id == checkId
              && v.domain == t.checks[checkId - 1].domain
              && v.createdAt == t.checks[checkId - 1].createdAt
              && |v.results| == |fs|
              && forall k :: 0 <= k < |fs| ==> v.results[k] == FindingViewOf(fs[k])
    ensures GetDnsCheck(t, checkId).Problem? <==> InInt64(checkId) && !(1 <= checkId <= |t.checks|)
    ensures GetDnsCheck(t, checkId).Problem? ==> GetDnsCheck(t, checkId) == Problem(StatusNotFound, NotFoundDetail)
    ensures GetDnsCheck(t, checkId).Crashed? <==> !InInt64(checkId)
  {
    LookupById(t, checkId);
  }

  /** Reading a check right after it was created gives back what the create returned, while its id is a valid rowid. */
  lemma GetAfterCreate(t: Tables, domain: string, d: Downstream, now: nat, render: Value -> string)
    requires WellFormed(t) && |t.checks| < MaxInt64
    requires HandleCreate(t, domain, d, now, render).response.Ok?
    ensures var x := HandleCreate(t, domain, d, now, render);
      GetDnsCheck(x.tables, x.response.body.id) == Ok(StatusOk, x.response.body)
  {
  }

  /** A batch holding a finding the database refuses makes the create fail. */
  lemma BatchWithRefusalFails(t: Tables, domain: string, d: Downstream, now: nat, render: Value -> string, i: int)
    requires ValidDomain(domain) && Analyse(d, render).Success?
    requires 0 <= i < |Analyse(d, render).value| && !StorableFinding(Analyse(d, render).value[i])
    ensures HandleCreate(t, domain, d, now, render).response.Problem?
  {
    var a := Analyse(d, render).value;
    StagedShape(|t.checks| + 1, |t.findings| + 1, a);
  }

  // ---------------------------------------------------------------------
  // GET /
  // ---------------------------------------------------------------------

  /** The skip in effect: the query parameter, or its default. */
  function SkipOf(skip: Option<int>): int
  {
    if skip.Some? then skip.value else DefaultSkip
  }

  /** The limit in effect: the query parameter, or its default. */
  function LimitOf(limit: Option<int>): int
  {
    if limit.Some? then limit.value else DefaultLimit
  }

  /** A check as the list shows it: its id, domain and created_at with the number of findings that refer to it. */
  function SummaryOf(t: Tables, c: CheckRow): SummaryView
  {
    SummaryView(c.id, c.domain, c.createdAt, |FindingsOf(t.findings, c.id)|)
  }

  /** The response models of one page of get_multi_with_count: entry k summarises listing row k. */
  function Summaries(t: Tables, skip: int, limit: int): (r: seq<SummaryView>)
    ensures |r| == |Listing(t, skip, limit)|
    ensures forall k :: 0 <= k < |r| ==> r[k] == SummaryOf(t, Listing(t, skip, limit)[k])
  {
    var page := WithCounts(t, skip, limit);
    seq(|page|, k requires 0 <= k < |page| => SummaryViewOf(page[k]))
  }

  /**
   * list_dns_checks: a page of summaries; an absent query parameter takes
   * its default (skip 0, limit 100). A skip or limit outside SQLite's
   * 64-bit range cannot be bound, and the route does not catch that error.
   */
  function ListDnsChecks(t: Tables, skip: Option<int>, limit: Option<int>): (r: HttpResponse<seq<SummaryView>>)
    ensures r.Ok? || r.Crashed?
    ensures r.Ok? <==> (skip.None? || InInt64(skip.value)) && (limit.None? || InInt64(limit.value))
    ensures r.Ok? ==> r.status == StatusOk
    ensures r.Crashed? ==> r.status == StatusServerError
  {
    var s := SkipOf(skip);
    var l := LimitOf(limit);
    if !InInt64(s) || !InInt64(l) then Crashed(StatusServerError)
    else Ok(StatusOk, Summaries(t, s, l))
  }

  /** Without query parameters the list is the first page of 100, which holds the 100 newest checks or all of them. */
  lemma ListDefaults(t: Tables)
    requires WellFormed(t)
    ensures ListDnsChecks(t, None, None) == ListDnsChecks(t, Some(DefaultSkip), Some(DefaultLimit))
    ensures |ListDnsChecks(t, None, None).body| == Min(DefaultLimit, |t.checks|)
  {
    ListingProperties(t, DefaultSkip, DefaultLimit);
  }

  /** With a non-negative skip and limit a page has min(limit, max(0, n - skip)) entries. */
  lemma ListSize(t: Tables, skip: int, limit: int)
    requires WellFormed(t) && skip >= 0 && limit >= 0
    ensures ListDnsChecks(t, Some(skip), Some(limit)).Ok? ==>
              |ListDnsChecks(t, Some(skip), Some(limit)).body| == Min(limit, Max(0, |t.checks| - skip))
  {
    ListingProperties(t, skip, limit);
  }

  /** A page lists the checks newest first, each check at most once. */
  lemma ListOrder(t: Tables, skip: Option<int>, limit: Option<int>)
    requires WellFormed(t)
    ensures ListDnsChecks(t, skip, limit).Ok? ==>
      var body := ListDnsChecks(t, skip, limit).body;
      forall i, j :: 0 <= i < j < |body| ==> body[i].createdAt >= body[j].createdAt && body[i].id != body[j].id
  {
    if ListDnsChecks(t, skip, limit).Ok? {
      var s := SkipOf(skip);
      var l := LimitOf(limit);
      WithCountsOrder(t, s, l);
      var page := WithCounts(t, s, l);
      var body := ListDnsChecks(t, skip, limit).body;
      forall i, j | 0 <= i < j < |body|
        ensures body[i].createdAt >= body[j].createdAt && body[i].id != body[j].id
      {
        assert body[i] == SummaryViewOf(page[i]) && body[j] == SummaryViewOf(page[j]);
      }
    }
  }

  /** Each entry is a stored check's columns with the number of findings that refer to it. */
  lemma ListEntries(t: Tables, skip: Option<int>, limit: Option<int>)
    requires WellFormed(t)
    ensures ListDnsChecks(t, skip, limit).Ok? ==>
      var body := ListDnsChecks(t, skip, limit).body;
      var listing := Listing(t, SkipOf(skip), LimitOf(limit));
      && |body| == |listing|
      && forall k :: 0 <= k < |body| ==>
           listing[k] in t.checks && body[k] == SummaryOf(t, listing[k])
  {
    if ListDnsChecks(t, skip, limit).Ok? {
      var s := SkipOf(skip);
      var l := LimitOf(limit);
      ListingProperties(t, s, l);
      var listing := Listing(t, s, l);
      forall k | 0 <= k < |listing|
        ensures listing[k] in t.checks
      {
        assert listing[k] in listing;
      }
    }
  }

  /**
   * When the checks were created at increasing times, entry k of the list is
   * the check created (s + k + 1)-th from last, s being the rows skipped.
   */
  lemma ListRecentFirst(t: Tables, skip: Option<int>, limit: Option<int>)
    requires WellFormed(t)
    requires forall i, j :: 0 <= i < j < |t.checks| ==> t.checks[i].createdAt < t.checks[j].createdAt
    ensures ListDnsChecks(t, skip, limit).Ok? ==>
      var body := ListDnsChecks(t, skip, limit).body;
      var s := Offset(SkipOf(skip));
      && (|body| > 0 ==> s + |body| <= |t.checks|)
      && forall k :: 0 <= k < |body| ==> body[k] == SummaryOf(t, t.checks[|t.checks| - 1 - s - k])
  {
    if ListDnsChecks(t, skip, limit).Ok? {
      var s := Offset(SkipOf(skip));
      var l := LimitOf(limit);
      var listing := Listing(t, s, l);
      assert Listing(t, SkipOf(skip), l) == listing;
      ListingOfIncreasing(t, s, l);
      EntriesOfReversed(t, Summaries(t, SkipOf(skip), l), listing, s);
    }
  }

  /** Summaries of a run of checks taken newest first from offset s are the summaries of those checks. */
  lemma EntriesOfReversed(t: Tables, body: seq<SummaryView>, listing: seq<CheckRow>, s: nat)
    requires |body| == |listing|
    requires forall k :: 0 <= k < |body| ==> body[k] == SummaryOf(t, listing[k])
    requires |listing| > 0 ==> s + |listing| <= |t.checks|
    requires forall k :: 0 <= k < |listing| ==> listing[k] == t.checks[|t.checks| - 1 - s - k]
    ensures |body| > 0 ==> s + |body| <= |t.checks|
    ensures forall k :: 0 <= k < |body| ==> body[k] == SummaryOf(t, t.checks[|t.checks| - 1 - s - k])
  {
    forall k | 0 <= k < |body|
      ensures body[k] == SummaryOf(t, t.checks[|t.checks| - 1 - s - k])
    {
      assert listing[k] == t.checks[|t.checks| - 1 - s - k];
    }
  }
}
