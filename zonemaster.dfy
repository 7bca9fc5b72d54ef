/**
 * ZonemasterService: the JSON-RPC request to the Zonemaster engine, the
 * reading of its reply, the normaliser of its findings and the
 * orchestration that stores a check and its findings.
 *
 * The HTTP call is not modelled: its outcome is the input `Downstream`.
 * Python's str() of a decoded JSON value is the parameter `render`.
 */
module Zonemaster {
  import opened Wrappers
  import opened Json
  import opened Store
  import opened Schemas

  // ---------------------------------------------------------------------
  // The request envelope
  // ---------------------------------------------------------------------

  const RpcVersion := "2.0"
  const TestMethod := "start_domain_test"
  const TestProfile := "default"
  const RequestId := 1

  /** A request object as section 4 of the JSON-RPC 2.0 Specification defines it. */
  predicate IsRpcRequest(v: Value)
  {
    && v.Object?
    && v.fields.Keys <= {"jsonrpc", "method", "params", "id"}
    && "jsonrpc" in v.fields && v.fields["jsonrpc"] == Str(RpcVersion)
    && "method" in v.fields && v.fields["method"].Str?
    && !("rpc." <= v.fields["method"].s)
    && ("params" in v.fields ==> v.fields["params"].Object? || v.fields["params"].Array?)
    && ("id" in v.fields ==> v.fields["id"].Str? || v.fields["id"].Number? || v.fields["id"].Null?)
  }

  /** The domain a start_domain_test request asks the engine to test, read back from its params. */
  function RequestedDomain(v: Value): Option<string>
  {
    if && v.Object? && "method" in v.fields && v.fields["method"] == Str(TestMethod)
       && "params" in v.fields && v.fields["params"].Object?
       && "domain" in v.fields["params"].fields && v.fields["params"].fields["domain"].Str?
    then Some(v.fields["params"].fields["domain"].s)
    else None
  }

  /**
   * The payload _call_zonemaster_api posts: a well-formed JSON-RPC 2.0
   * request carrying an id (so the engine answers it), asking for
   * start_domain_test on exactly the given domain.
   */
  function Envelope(domain: string): (req: Value)
    ensures IsRpcRequest(req)
    ensures "id" in req.fields && req.fields["id"] == Number(RequestId)
    ensures RequestedDomain(req) == Some(domain)
  {
    assert TestMethod[0] != "rpc."[0];
    Object(map[
      "jsonrpc" := Str(RpcVersion),
      "method" := Str(TestMethod),
      "params" := Object(map["domain" := Str(domain), "profile" := Str(TestProfile)]),
      "id" := Number(RequestId)
    ])
  }

  /** Only the domain varies: two envelopes agree on every member but params.domain, and the profile is always "default". */
  lemma EnvelopeFixed(a: string, b: string)
    ensures Envelope(a).fields.Keys == Envelope(b).fields.Keys == {"jsonrpc", "method", "params", "id"}
    ensures forall k :: k in Envelope(a).fields && k != "params" ==> Envelope(a).fields[k] == Envelope(b).fields[k]
    ensures Envelope(a).fields["params"].fields.Keys == {"domain", "profile"}
    ensures Envelope(a).fields["params"].fields["profile"] == Str(TestProfile)
    ensures Envelope(a) == Envelope(b) <==> a == b
  {
  }

  // ---------------------------------------------------------------------
  // Failures and their messages
  // ---------------------------------------------------------------------

  /** What the engine's call produced; the transport itself is not modelled. */
  datatype Downstream =
    | TransportError(detail: string)        // httpx could not complete the exchange (connection refused, timeout, ...)
    | BadStatus(code: int, detail: string)  // raise_for_status on a reply whose status is not 2xx
    | Body(reply: map<string, Value>)       // a 2xx reply whose body decodes to a JSON object

  /** An exception other than httpx.HTTPError raised inside run_check_and_save. */
  datatype Fault =
    | InvalidDomain                 // DNSCheckCreate(domain=...) fails validation
    | RpcError(payload: Value)      // the reply has an "error" member
    | NotIterable(typeName: string) // `for result in raw_results` on a scalar
    | NoGet(typeName: string)       // `result.get(...)` on an item that is not a dict
    | StoreRefused(cause: StoreError)

  /** The exception run_check_and_save raises, by the except clause that wraps it. */
  datatype ServiceError =
    | ConnectFailed(detail: string) // except httpx.HTTPError
    | CheckFailed(fault: Fault)     // except Exception

  const ConnectPrefix := "Failed to connect to Zonemaster API: "
  const CheckPrefix := "DNS check failed: "
  const RpcErrorPrefix := "Zonemaster API error: "

  /** The text of the wrapped exception (for exceptions of Python, Pydantic and SQLite, a short form of it). */
  function FaultText(f: Fault, render: Value -> string): string
  {
    match f
    case InvalidDomain => "1 validation error for DNSCheckCreate"
    case RpcError(payload) => RpcErrorPrefix + render(payload)
    case NotIterable(t) => "'" + t + "' object is not iterable"
    case NoGet(t) => "'" + t + "' object has no attribute 'get'"
    case StoreRefused(NotNull(c)) => "NOT NULL constraint failed: dns_results." + c
    case StoreRefused(Unsupported(c, t)) => "type '" + t + "' is not supported"
    case StoreRefused(TooLarge(c)) => "Python int too large to convert to SQLite INTEGER"
  }

  /** str() of the exception run_check_and_save raises. */
  function Message(e: ServiceError, render: Value -> string): string
  {
    match e
    case ConnectFailed(d) => ConnectPrefix + d
    case CheckFailed(f) => CheckPrefix + FaultText(f, render)
  }

  /** The two prefixes tell the failures apart: connection-level failures and every other one. */
  lemma MessagePrefixes(e: ServiceError, render: Value -> string)
    ensures ConnectPrefix <= Message(e, render) <==> e.ConnectFailed?
    ensures CheckPrefix <= Message(e, render) <==> e.CheckFailed?
  {
    var m := Message(e, render);
    if e.ConnectFailed? {
      assert m[0] == 'F' && CheckPrefix[0] == 'D';
    } else {
      assert m[0] == 'D' && ConnectPrefix[0] == 'F';
    }
  }

  // ---------------------------------------------------------------------
  // Reading the reply
  // ---------------------------------------------------------------------

  /**
   * _call_zonemaster_api and the except clauses around it: a transport
   * error or a non-2xx status is a connection failure; a reply with an
   * "error" member fails whatever else it holds; otherwise the "result"
   * member, or an empty list when it is missing.
   */
  function Fetch(d: Downstream): (r: Result<Value, ServiceError>)
    ensures (r.Failure? && r.error.ConnectFailed?) <==> !d.Body?
    ensures d.Body? ==> (r.Failure? <==> "error" in d.reply)
  {
    match d
    case TransportError(detail) => Failure(ConnectFailed(detail))
    case BadStatus(_, detail) => Failure(ConnectFailed(detail))
    case Body(reply) =>
      if "error" in reply then Failure(CheckFailed(RpcError(reply["error"])))
      else Success(if "result" in reply then reply["result"] else Array([]))
  }

  /** A response object as section 5 of the JSON-RPC 2.0 Specification defines it: exactly one of "result" and "error". */
  predicate IsRpcResponse(reply: map<string, Value>)
  {
    && "jsonrpc" in reply && reply["jsonrpc"] == Str(RpcVersion)
    && "id" in reply
    && (("result" in reply) != ("error" in reply))
  }

  /** On a response that follows section 5, the reading is the standard one: success with the result, or failure with the error. */
  lemma StandardResponsesRead(reply: map<string, Value>)
    requires IsRpcResponse(reply)
    ensures "result" in reply ==> Fetch(Body(reply)) == Success(reply["result"])
    ensures "error" in reply ==> Fetch(Body(reply)) == Failure(CheckFailed(RpcError(reply["error"])))
  {
  }

  /** The first departure from section 5: an "error" member means failure even beside a "result" member. */
  lemma ErrorMemberWins(reply: map<string, Value>)
    requires "error" in reply
    ensures Fetch(Body(reply)) == Failure(CheckFailed(RpcError(reply["error"])))
  {
  }

  /** The second departure: a reply with neither member reads as an empty result list. */
  lemma MissingResultIsEmpty(reply: map<string, Value>)
    requires "error" !in reply && "result" !in reply
    ensures Fetch(Body(reply)) == Success(Array([]))
  {
  }

  // ---------------------------------------------------------------------
  // Normalising the findings
  // ---------------------------------------------------------------------

  /**
   * What `for result in raw_results` walks: a list's items; nothing for an
   * empty dict or string; a non-empty dict or string yields str items,
   * on which `.get` fails; any other value is not iterable.
   */
  function Items(raw: Value): Result<seq<Value>, Fault>
  {
    match raw
    case Array(items) => Success(items)
    case Object(fields) => if |fields| == 0 then Success([]) else Failure(NoGet("str"))
    case Str(s) => if s == "" then Success([]) else Failure(NoGet("str"))
    case _ => Failure(NotIterable(TypeName(raw)))
  }

  /** dict.get(key, default). */
  function FieldOr(m: map<string, Value>, key: string, default: Value): Value
  {
    if key in m then m[key] else default
  }

  /** The four-key record the normaliser makes of one finding. */
  function NormaliseEntry(m: map<string, Value>, render: Value -> string): NewFinding
  {
    NewFinding(
      FieldOr(m, "level", Str("INFO")),
      FieldOr(m, "module", Str("UNKNOWN")),
      FieldOr(m, "tag", Str("UNKNOWN")),
      FieldOr(m, "message", Str(render(Object(m)))))
  }

  function NormaliseItems(items: seq<Value>, render: Value -> string): Result<seq<NewFinding>, Fault>
    decreases |items|
  {
    if items == [] then Success([])
    else if !items[0].Object? then Failure(NoGet(TypeName(items[0])))
    else Prepend([NormaliseEntry(items[0].fields, render)], NormaliseItems(items[1..], render))
  }

  /** _parse_zonemaster_results as a function of the "result" member. */
  function Normalise(raw: Value, render: Value -> string): Result<seq<NewFinding>, Fault>
  {
    match Items(raw)
    case Failure(f) => Failure(f)
    case Success(items) => NormaliseItems(items, render)
  }

  /**
   * The normaliser fails exactly when some item is not a mapping; on a
   * list of mappings it gives one record per item, in the same order.
   */
  lemma {:induction false} NormaliseItemsShape(items: seq<Value>, render: Value -> string)
    ensures NormaliseItems(items, render).Success? <==> forall i :: 0 <= i < |items| ==> items[i].Object?
    ensures NormaliseItems(items, render).Success? ==>
              var records := NormaliseItems(items, render).value;
              && |records| == |items|
              && forall i :: 0 <= i < |records| ==> items[i].Object? && records[i] == NormaliseEntry(items[i].fields, render)
    decreases |items|
  {
    if items != [] {
      NormaliseItemsShape(items[1..], render);
      if items[0].Object? {
        var rest := NormaliseItems(items[1..], render);
        if rest.Success? {
          var records := NormaliseItems(items, render).value;
          assert records == [NormaliseEntry(items[0].fields, render)] + rest.value;
          forall i | 0 <= i < |records|
            ensures items[i].Object? && records[i] == NormaliseEntry(items[i].fields, render)
          {
            if i > 0 {
              assert items[1..][i - 1] == items[i];
            }
          }
        } else {
          var k :| 0 <= k < |items[1..]| && !items[1..][k].Object?;
          assert !items[k + 1].Object?;
        }
      }
    }
  }

  /**
   * Each field of a normalised record: a key that is present is copied as
   * it is; a missing level is "INFO", a missing module or tag "UNKNOWN",
   * and a missing message is the rendering of the whole finding.
   */
  lemma NormaliseEntryFields(m: map<string, Value>, render: Value -> string)
    ensures NormaliseEntry(m, render).level == if "level" in m then m["level"] else Str("INFO")
    ensures NormaliseEntry(m, render).moduleName == if "module" in m then m["module"] else Str("UNKNOWN")
    ensures NormaliseEntry(m, render).tag == if "tag" in m then m["tag"] else Str("UNKNOWN")
    ensures NormaliseEntry(m, render).message == if "message" in m then m["message"] else Str(render(Object(m)))
  {
  }

  /** A finding with all four keys as strings is stored exactly as the engine sent it. */
  lemma CompleteFindingStored(m: map<string, Value>, render: Value -> string, id: nat, checkId: nat,
                              level: string, moduleName: string, tag: string, message: string)
    requires "level" in m && "module" in m && "tag" in m && "message" in m
    requires m["level"] == Str(level) && m["module"] == Str(moduleName) && m["tag"] == Str(tag) && m["message"] == Str(message)
    ensures RowOf(id, checkId, NormaliseEntry(m, render)) == Success(FindingRow(id, checkId, level, moduleName, tag, message))
  {
  }

  /** A result member that is a scalar cannot be iterated; an empty dict or string gives no findings. */
  lemma ResultMemberShapes(raw: Value, render: Value -> string)
    ensures raw.Null? || raw.Bool? || raw.Number? ==> Normalise(raw, render) == Failure(NotIterable(TypeName(raw)))
    ensures raw == Object(map[]) || raw == Str("") ==> Normalise(raw, render) == Success([])
  {
  }

  /** _parse_zonemaster_results: walks the items and appends one record per mapping. */
  method ParseResults(raw: Value, render: Value -> string) returns (r: Result<seq<NewFinding>, Fault>)
    ensures r == Normalise(raw, render)
  {
    var walked := Items(raw);
    if walked.Failure? {
      return Failure(walked.error);
    }
    var items := walked.value;
    var parsed: seq<NewFinding> := [];
    var i := 0;
    assert items[i..] == items;
    PrependNothing(NormaliseItems(items, render));
    while i < |items|
      invariant 0 <= i <= |items|
      invariant NormaliseItems(items, render) == Prepend(parsed, NormaliseItems(items[i..], render))
    {
      var item := items[i];
      assert items[i..][0] == item;
      assert items[i..][1..] == items[i + 1..];
      if !item.Object? {
        assert NormaliseItems(items[i..], render) == Failure(NoGet(TypeName(item)));
        return Failure(NoGet(TypeName(item)));
      }
      var record := NormaliseEntry(item.fields, render);
      PrependTwice(parsed, [record], NormaliseItems(items[i + 1..], render));
      parsed := parsed + [record];
      i := i + 1;
    }
    assert items[i..] == [];
    assert parsed + [] == parsed;
    r := Success(parsed);
  }

  // ---------------------------------------------------------------------
  // run_check_and_save
  // ---------------------------------------------------------------------

  /** The engine's reply read and normalised. */
  function Analyse(d: Downstream, render: Value -> string): Result<seq<NewFinding>, ServiceError>
  {
    match Fetch(d)
    case Failure(e) => Failure(e)
    case Success(raw) =>
      match Normalise(raw, render)
      case Failure(f) => Failure(CheckFailed(f))
      case Success(records) => Success(records)
  }

  /** The tables after an operation, and what it returned or raised. */
  datatype Outcome = Outcome(tables: Tables, result: Result<CheckView, ServiceError>)

  /**
   * The orchestration in order: validate the domain, insert and commit the
   * check, read the reply, normalise it, insert the findings when there are
   * any, and reload the check with its findings.
   */
  function Run(t: Tables, domain: string, d: Downstream, now: nat, render: Value -> string): Outcome
  {
    if !ValidDomain(domain) then Outcome(t, Failure(CheckFailed(InvalidDomain)))
    else
      var check := CheckRow(|t.checks| + 1, domain, now);
      var created := Inserted(t, domain, now);
      match Analyse(d, render)
      case Failure(e) => Outcome(created, Failure(e))
      case Success(records) =>
        var saved := if |records| > 0 then BulkInserted(created, check.id, records) else Success(created);
        match saved
        case Failure(e) => Outcome(created, Failure(CheckFailed(StoreRefused(e))))
        case Success(t') => Outcome(t', Success(CheckViewOf(CheckWithFindings(check, FindingsOf(t'.findings, check.id)))))
  }

  /** ZonemasterService.run_check_and_save. */
  method RunCheckAndSave(db: Database, domain: string, d: Downstream, now: nat, render: Value -> string)
    returns (r: Result<CheckView, ServiceError>)
    requires db.Valid()
    modifies db
    ensures db.Valid()
    ensures Outcome(db.State(), r) == Run(old(db.State()), domain, d, now, render)
  {
    if !ValidDomain(domain) {
      return Failure(CheckFailed(InvalidDomain));
    }
    var check := db.Create(domain, now);
    var fetched := Fetch(d);
    if fetched.Failure? {
      return Failure(fetched.error);
    }
    var parsed := ParseResults(fetched.value, render);
    if parsed.Failure? {
      return Failure(CheckFailed(parsed.error));
    }
    if |parsed.value| > 0 {
      var saved := db.CreateBulk(check.id, parsed.value);
      if saved.Failure? {
        return Failure(CheckFailed(StoreRefused(saved.error)));
      }
    }
    LookupById(db.State(), check.id);
    var reloaded := Lookup(db.State(), check.id);
    r := Success(CheckViewOf(reloaded.value));
  }

  /**
   * Any failure after validation leaves exactly one new check behind, with
   * no findings, and nothing else changed: the check was committed before
   * the engine was called and nothing removes it.
   */
  lemma RunFailureLeavesOrphan(t: Tables, domain: string, d: Downstream, now: nat, render: Value -> string)
    requires WellFormed(t) && ValidDomain(domain)
    requires Run(t, domain, d, now, render).result.Failure?
    ensures Run(t, domain, d, now, render).tables == Inserted(t, domain, now)
    ensures Lookup(Run(t, domain, d, now, render).tables, |t.checks| + 1)
            == Some(CheckWithFindings(CheckRow(|t.checks| + 1, domain, now), []))
  {
    InsertedAddsOne(t, domain, now);
  }

  /**
   * On success with N normalised records, the findings grow by exactly the
   * N stored rows, in order, and the returned view is the reloaded check
   * with exactly those rows; with N = 0 nothing is inserted.
   */
  lemma RunSuccess(t: Tables, domain: string, d: Downstream, now: nat, render: Value -> string)
    requires WellFormed(t) && ValidDomain(domain)
    requires Analyse(d, render).Success?
    requires Staged(|t.checks| + 1, |t.findings| + 1, Analyse(d, render).value).Success?
    ensures var rows := Staged(|t.checks| + 1, |t.findings| + 1, Analyse(d, render).value).value;
      var check := CheckRow(|t.checks| + 1, domain, now);
      var o := Run(t, domain, d, now, render);
      && o.tables == Tables(t.checks + [check], t.findings + rows)
      && WellFormed(o.tables)
      && Lookup(o.tables, check.id) == Some(CheckWithFindings(check, rows))
      && o.result == Success(CheckViewOf(CheckWithFindings(check, rows)))
  {
    var records := Analyse(d, render).value;
    var id := |t.checks| + 1;
    var check := CheckRow(id, domain, now);
    var created := Inserted(t, domain, now);
    var rows := Staged(id, |t.findings| + 1, records).value;
    InsertedAddsOne(t, domain, now);
    assert FindingsOf(created.findings, id) == [];
    var o := Run(t, domain, d, now, render);
    if |records| > 0 {
      BulkInsertedAppends(created, id, records);
    } else {
      assert records == [];
      assert rows == [];
      assert t.findings + rows == t.findings;
      assert o.tables == created;
    }
    assert o.tables == Tables(t.checks + [check], t.findings + rows);
    assert FindingsOf(o.tables.findings, id) == rows;
    LookupById(o.tables, id);
  }

  /**
   * A later check leaves every other check exactly as it was, findings
   * included: a check's findings never change once its creation returned.
   */
  lemma RunKeepsOtherChecks(t: Tables, domain: string, d: Downstream, now: nat, render: Value -> string, id: int)
    requires WellFormed(t) && id != |t.checks| + 1
    ensures WellFormed(Run(t, domain, d, now, render).tables)
    ensures Lookup(Run(t, domain, d, now, render).tables, id) == Lookup(t, id)
  {
    if ValidDomain(domain) {
      var created := Inserted(t, domain, now);
      var n := |t.checks| + 1;
      InsertedAddsOne(t, domain, now);
      var a := Analyse(d, render);
      if a.Success? && |a.value| > 0 && BulkInserted(created, n, a.value).Success? {
        BulkInsertedAppends(created, n, a.value);
        BulkInsertedKeepsOthers(created, n, a.value, id);
      }
    }
  }
}
