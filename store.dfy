/**
 * The two tables behind the service, dns_checks and dns_results, and the
 * CRUD operations over them (DNSCheckCRUD and DNSResultCRUD).
 *
 * The read-only queries are functions of a `Tables` value; the two inserts
 * are methods of `Database`, whose state is that value.
 */
module Store {
  import opened Wrappers
  import opened Json

  /** A dns_checks row; `createdAt` stands for the timestamp the database assigns on insert. */
  datatype CheckRow = CheckRow(id: nat, domain: string, createdAt: nat)

  /** A dns_results row. */
  datatype FindingRow = FindingRow(id: nat, checkId: nat, level: string, moduleName: string, tag: string, message: string)

  /** One dictionary handed to create_bulk: the four keys it reads, each with the JSON value it holds. */
  datatype NewFinding = NewFinding(level: Value, moduleName: Value, tag: Value, message: Value)

  /** A check loaded together with its `results` relationship. */
  datatype CheckWithFindings = CheckWithFindings(check: CheckRow, results: seq<FindingRow>)

  /** One row of the counting list query: the check's columns and how many findings refer to it. */
  datatype SummaryRow = SummaryRow(id: nat, domain: string, createdAt: nat, resultsCount: nat)

  /**
   * Why the database refuses a finding value when the batch is committed:
   * the driver cannot bind a list or a dict, nor an integer outside
   * SQLite's signed 64-bit range; a NULL breaks the column's NOT NULL.
   */
  datatype StoreError =
    | NotNull(column: string)
    | Unsupported(column: string, typeName: string)
    | TooLarge(column: string)

  datatype Tables = Tables(checks: seq<CheckRow>, findings: seq<FindingRow>)

  /**
   * Ids are SQLite rowids: nothing is ever deleted and a refused batch is
   * rolled back, so the i-th row of each table has id i + 1. Every finding
   * refers to a check that exists.
   */
  ghost predicate WellFormed(t: Tables)
  {
    && (forall i :: 0 <= i < |t.checks| ==> t.checks[i].id == i + 1)
    && (forall j :: 0 <= j < |t.findings| ==> t.findings[j].id == j + 1 && 1 <= t.findings[j].checkId <= |t.checks|)
  }

  // ---------------------------------------------------------------------
  // Storing a finding value in a text column
  // ---------------------------------------------------------------------

  /** SQLite's INTEGER range: a signed 64-bit integer. */
  const MinInt64 := -0x8000_0000_0000_0000
  const MaxInt64 := 0x7FFF_FFFF_FFFF_FFFF

  predicate InInt64(n: int)
  {
    MinInt64 <= n <= MaxInt64
  }

  /** A value the driver can bind as a statement parameter (NULL included). */
  predicate Bindable(v: Value)
  {
    && !v.Array? && !v.Object?
    && (v.Number? ==> InInt64(v.n))
  }

  /** A value SQLite binds and keeps in a NOT NULL VARCHAR/TEXT column. */
  predicate Storable(v: Value)
  {
    Bindable(v) && !v.Null?
  }

  function DigitChar(d: nat): char
    requires d < 10
  {
    "0123456789"[d]
  }

  function Digits(n: nat): string
    decreases n
  {
    if n < 10 then [DigitChar(n)] else Digits(n / 10) + [DigitChar(n % 10)]
  }

  function DecimalText(n: int): string
  {
    if n < 0 then "-" + Digits(-n) else Digits(n)
  }

  /** The text a column with text affinity holds after binding a storable value. */
  function Text(v: Value): string
    requires Storable(v)
  {
    if v.Str? then v.s
    else if v.Number? then DecimalText(v.n)
    else if v.b then "1" else "0"
  }

  /** Why the driver refuses to bind a value: an integer out of range, or a list or a dict. */
  function BindRefusal(column: string, v: Value): StoreError
    requires !Bindable(v)
  {
    if v.Number? then TooLarge(column) else Unsupported(column, TypeName(v))
  }

  predicate StorableFinding(f: NewFinding)
  {
    Storable(f.level) && Storable(f.moduleName) && Storable(f.tag) && Storable(f.message)
  }

  /**
   * The dns_results row one dictionary becomes, or the first refusal. All
   * four values are bound before the statement runs, so a value that cannot
   * be bound is reported before any NULL; each kind in column order.
   */
  function RowOf(id: nat, checkId: nat, f: NewFinding): (r: Result<FindingRow, StoreError>)
    ensures r.Success? <==> StorableFinding(f)
    ensures r.Success? ==> r.value.id == id && r.value.checkId == checkId
    ensures r.Failure? && r.error.NotNull? <==>
              && Bindable(f.level) && Bindable(f.moduleName) && Bindable(f.tag) && Bindable(f.message)
              && !StorableFinding(f)
  {
    if !Bindable(f.level) then Failure(BindRefusal("level", f.level))
    else if !Bindable(f.moduleName) then Failure(BindRefusal("module", f.moduleName))
    else if !Bindable(f.tag) then Failure(BindRefusal("tag", f.tag))
    else if !Bindable(f.message) then Failure(BindRefusal("message", f.message))
    else if f.level.Null? then Failure(NotNull("level"))
    else if f.moduleName.Null? then Failure(NotNull("module"))
    else if f.tag.Null? then Failure(NotNull("tag"))
    else if f.message.Null? then Failure(NotNull("message"))
    else Success(FindingRow(id, checkId, Text(f.level), Text(f.moduleName), Text(f.tag), Text(f.message)))
  }

  /** A list in the last column is refused when it is bound, before the NULL in the first column is noticed. */
  lemma BindingBeforeNotNull(id: nat, checkId: nat)
    ensures RowOf(id, checkId, NewFinding(Null, Str("M"), Str("T"), Array([]))) == Failure(Unsupported("message", "list"))
    ensures RowOf(id, checkId, NewFinding(Null, Str("M"), Str("T"), Str("x"))) == Failure(NotNull("level"))
  {
  }

  /** The rows a batch becomes, numbered from `firstId` in input order, or the first refusal. */
  function Staged(checkId: nat, firstId: nat, records: seq<NewFinding>): Result<seq<FindingRow>, StoreError>
    decreases |records|
  {
    if records == [] then Success([])
    else
      match RowOf(firstId, checkId, records[0])
      case Failure(e) => Failure(e)
      case Success(row) => Prepend([row], Staged(checkId, firstId + 1, records[1..]))
  }

  /**
   * A batch is stored exactly when every value in it is storable; then it
   * gives one row per record, in input order, with consecutive ids, the
   * given check id and the record's four values.
   */
  lemma {:induction false} StagedShape(checkId: nat, firstId: nat, records: seq<NewFinding>)
    ensures Staged(checkId, firstId, records).Success? <==> forall i :: 0 <= i < |records| ==> StorableFinding(records[i])
    ensures Staged(checkId, firstId, records).Success? ==>
              var rows := Staged(checkId, firstId, records).value;
              && |rows| == |records|
              && forall i :: 0 <= i < |rows| ==>
                   && StorableFinding(records[i])
                   && rows[i] == FindingRow(firstId + i, checkId, Text(records[i].level), Text(records[i].moduleName),
                                            Text(records[i].tag), Text(records[i].message))
    decreases |records|
  {
    if records != [] {
      StagedShape(checkId, firstId + 1, records[1..]);
      var head := RowOf(firstId, checkId, records[0]);
      if head.Success? {
        var rest := Staged(checkId, firstId + 1, records[1..]);
        if rest.Success? {
          var rows := Staged(checkId, firstId, records).value;
          assert rows == [head.value] + rest.value;
          forall i | 0 <= i < |rows|
            ensures StorableFinding(records[i])
            ensures rows[i] == FindingRow(firstId + i, checkId, Text(records[i].level), Text(records[i].moduleName),
                                          Text(records[i].tag), Text(records[i].message))
          {
            if i > 0 {
              assert records[1..][i - 1] == records[i];
            }
          }
        } else {
          var k :| 0 <= k < |records[1..]| && !StorableFinding(records[1..][k]);
          assert !StorableFinding(records[k + 1]);
        }
      }
    }
  }

  /** A batch with nothing in it stores nothing. */
  lemma EmptyBatch(checkId: nat, firstId: nat)
    ensures Staged(checkId, firstId, []) == Success([])
  {
  }

  // ---------------------------------------------------------------------
  // Inserts, as transformations of the tables
  // ---------------------------------------------------------------------

  /** DNSCheckCRUD.create: one new check with the next id and the insert's timestamp. */
  function Inserted(t: Tables, domain: string, now: nat): Tables
  {
    Tables(t.checks + [CheckRow(|t.checks| + 1, domain, now)], t.findings)
  }

  /** DNSResultCRUD.create_bulk: the batch appended after the existing findings, or nothing if refused. */
  function BulkInserted(t: Tables, checkId: nat, records: seq<NewFinding>): Result<Tables, StoreError>
  {
    match Staged(checkId, |t.findings| + 1, records)
    case Failure(e) => Failure(e)
    case Success(rows) => Success(Tables(t.checks, t.findings + rows))
  }

  // ---------------------------------------------------------------------
  // Reading a check and its findings
  // ---------------------------------------------------------------------

  /** The first check with the given id, as `WHERE id = :id` finds it. */
  function FindCheck(checks: seq<CheckRow>, id: int): (r: Option<CheckRow>)
    ensures r.Some? ==> r.value in checks && r.value.id == id
    ensures r.None? ==> forall c :: c in checks ==> c.id != id
  {
    if checks == [] then None
    else if checks[0].id == id then Some(checks[0])
    else FindCheck(checks[1..], id)
  }

  /** The findings that refer to a check, in insertion order: what the `results` relationship loads. */
  function FindingsOf(fs: seq<FindingRow>, checkId: int): (r: seq<FindingRow>)
    ensures forall x :: x in r <==> x in fs && x.checkId == checkId
    ensures |r| <= |fs|
  {
    if fs == [] then []
    else if fs[0].checkId == checkId then [fs[0]] + FindingsOf(fs[1..], checkId)
    else FindingsOf(fs[1..], checkId)
  }

  /** DNSCheckCRUD.get: the check with the id and its findings, or nothing. */
  function Lookup(t: Tables, id: int): Option<CheckWithFindings>
  {
    match FindCheck(t.checks, id)
    case None => None
    case Some(c) => Some(CheckWithFindings(c, FindingsOf(t.findings, id)))
  }

  lemma {:induction false} FindingsOfAppend(a: seq<FindingRow>, b: seq<FindingRow>, checkId: int)
    ensures FindingsOf(a + b, checkId) == FindingsOf(a, checkId) + FindingsOf(b, checkId)
    decreases |a|
  {
    if a != [] {
      assert (a + b)[0] == a[0];
      assert (a + b)[1..] == a[1..] + b;
      FindingsOfAppend(a[1..], b, checkId);
    } else {
      assert a + b == b;
    }
  }

  /** A list whose every finding refers to the check is its own selection, order included. */
  lemma {:induction false} FindingsOfAll(fs: seq<FindingRow>, checkId: int)
    requires forall x :: x in fs ==> x.checkId == checkId
    ensures FindingsOf(fs, checkId) == fs
    decreases |fs|
  {
    if fs != [] {
      FindingsOfAll(fs[1..], checkId);
      assert fs == [fs[0]] + fs[1..];
    }
  }

  lemma FindingsOfNone(fs: seq<FindingRow>, checkId: int)
    requires forall x :: x in fs ==> x.checkId != checkId
    ensures FindingsOf(fs, checkId) == []
  {
  }

  /** In well-formed tables, the check with id k sits at position k - 1. */
  lemma {:induction false} LookupById(t: Tables, id: int)
    requires WellFormed(t)
    ensures Lookup(t, id).Some? <==> 1 <= id <= |t.checks|
    ensures Lookup(t, id).Some? ==> Lookup(t, id).value == CheckWithFindings(t.checks[id - 1], FindingsOf(t.findings, id))
  {
    if 1 <= id <= |t.checks| {
      assert t.checks[id - 1] in t.checks;
      var c := FindCheck(t.checks, id);
      assert c.Some?;
      var k :| 0 <= k < |t.checks| && t.checks[k] == c.value;
      assert k == id - 1;
    }
  }

  /**
   * create adds exactly one check, with an id no existing check has and no
   * findings; every check that was there reads back as before.
   */
  lemma InsertedAddsOne(t: Tables, domain: string, now: nat)
    requires WellFormed(t)
    ensures WellFormed(Inserted(t, domain, now))
    ensures forall c :: c in t.checks ==> c.id != |t.checks| + 1
    ensures Lookup(Inserted(t, domain, now), |t.checks| + 1) == Some(CheckWithFindings(CheckRow(|t.checks| + 1, domain, now), []))
    ensures forall id :: id != |t.checks| + 1 ==> Lookup(Inserted(t, domain, now), id) == Lookup(t, id)
  {
    var t' := Inserted(t, domain, now);
    var n := |t.checks| + 1;
    forall c | c in t.checks
      ensures c.id != n
    {
      var k :| 0 <= k < |t.checks| && t.checks[k] == c;
    }
    forall x | x in t.findings
      ensures x.checkId != n
    {
      var k :| 0 <= k < |t.findings| && t.findings[k] == x;
    }
    FindingsOfNone(t.findings, n);
    LookupById(t', n);
    forall id | id != n
      ensures Lookup(t', id) == Lookup(t, id)
    {
      LookupById(t', id);
      LookupById(t, id);
    }
  }

  /** The rows of a stored batch are numbered from `firstId` and all refer to `checkId`. */
  lemma StagedIds(checkId: nat, firstId: nat, records: seq<NewFinding>)
    requires Staged(checkId, firstId, records).Success?
    ensures var rows := Staged(checkId, firstId, records).value;
      forall i :: 0 <= i < |rows| ==> rows[i].id == firstId + i && rows[i].checkId == checkId
  {
    StagedShape(checkId, firstId, records);
  }

  /** Appending rows numbered on from the last finding, all for one stored check, keeps the tables well formed. */
  lemma AppendedWellFormed(t: Tables, checkId: nat, rows: seq<FindingRow>)
    requires WellFormed(t) && 1 <= checkId <= |t.checks|
    requires forall i :: 0 <= i < |rows| ==> rows[i].id == |t.findings| + 1 + i && rows[i].checkId == checkId
    ensures WellFormed(Tables(t.checks, t.findings + rows))
  {
    var fs := t.findings + rows;
    forall j | 0 <= j < |fs|
      ensures fs[j].id == j + 1 && 1 <= fs[j].checkId <= |t.checks|
    {
      if j >= |t.findings| {
        assert fs[j] == rows[j - |t.findings|];
      }
    }
  }

  /**
   * create_bulk on a stored batch: the findings table grows by exactly the
   * staged rows, after the existing findings, and the check then owns its
   * earlier findings followed by the new ones; checks are untouched and the
   * tables stay well formed.
   */
  lemma BulkInsertedAppends(t: Tables, checkId: nat, records: seq<NewFinding>)
    requires WellFormed(t) && 1 <= checkId <= |t.checks|
    requires BulkInserted(t, checkId, records).Success?
    ensures Staged(checkId, |t.findings| + 1, records).Success?
    ensures var rows := Staged(checkId, |t.findings| + 1, records).value;
      var t' := BulkInserted(t, checkId, records).value;
      && t' == Tables(t.checks, t.findings + rows)
      && WellFormed(t')
      && FindingsOf(t'.findings, checkId) == FindingsOf(t.findings, checkId) + rows
  {
    var rows := Staged(checkId, |t.findings| + 1, records).value;
    StagedIds(checkId, |t.findings| + 1, records);
    AppendedWellFormed(t, checkId, rows);
    FindingsOfAppend(t.findings, rows, checkId);
    forall x | x in rows
      ensures x.checkId == checkId
    {
      var k :| 0 <= k < |rows| && rows[k] == x;
    }
    FindingsOfAll(rows, checkId);
  }

  /** A batch for one check leaves every other check, and its findings, as it was. */
  lemma BulkInsertedKeepsOthers(t: Tables, checkId: nat, records: seq<NewFinding>, id: int)
    requires id != checkId
    requires BulkInserted(t, checkId, records).Success?
    ensures Lookup(BulkInserted(t, checkId, records).value, id) == Lookup(t, id)
  {
    StagedIds(checkId, |t.findings| + 1, records);
    var rows := Staged(checkId, |t.findings| + 1, records).value;
    var t' := BulkInserted(t, checkId, records).value;
    assert t' == Tables(t.checks, t.findings + rows);
    forall x | x in rows
      ensures x.checkId != id
    {
      var k :| 0 <= k < |rows| && rows[k] == x;
    }
    FindingsOfNone(rows, id);
    FindingsOfAppend(t.findings, rows, id);
    assert t.findings + rows == t'.findings;
    assert FindingsOf(t'.findings, id) == FindingsOf(t.findings, id) + [];
    assert FindingsOf(t'.findings, id) == FindingsOf(t.findings, id);
    assert FindCheck(t'.checks, id) == FindCheck(t.checks, id);
  }

  // ---------------------------------------------------------------------
  // Counting findings per check (the outer join with COUNT)
  // ---------------------------------------------------------------------

  /** The aggregate of the outer join: one for every finding that refers to the check, zero when none does. */
  function Count(fs: seq<FindingRow>, checkId: int): nat
  {
    if fs == [] then 0
    else (if fs[0].checkId == checkId then 1 else 0) + Count(fs[1..], checkId)
  }

  lemma {:induction false} CountIsFindings(fs: seq<FindingRow>, checkId: int)
    ensures Count(fs, checkId) == |FindingsOf(fs, checkId)|
    decreases |fs|
  {
    if fs != [] {
      CountIsFindings(fs[1..], checkId);
    }
  }

  // ---------------------------------------------------------------------
  // ORDER BY created_at DESC, OFFSET skip, LIMIT limit
  // ---------------------------------------------------------------------

  /** Places a check before the first check that is strictly older. */
  function InsertByAge(c: CheckRow, sorted: seq<CheckRow>): seq<CheckRow>
  {
    if sorted == [] || sorted[0].createdAt <= c.createdAt then [c] + sorted
    else [sorted[0]] + InsertByAge(c, sorted[1..])
  }

  /** The checks newest first; checks with equal timestamps keep their insertion order. */
  function NewestFirst(checks: seq<CheckRow>): seq<CheckRow>
  {
    if checks == [] then [] else InsertByAge(checks[0], NewestFirst(checks[1..]))
  }

  ghost predicate Descending(s: seq<CheckRow>)
  {
    forall i, j :: 0 <= i < j < |s| ==> s[i].createdAt >= s[j].createdAt
  }

  ghost predicate DistinctIds(s: seq<CheckRow>)
  {
    forall i, j :: 0 <= i < j < |s| ==> s[i].id != s[j].id
  }

  /** Putting a check in front keeps the order when it is no older than every check behind it. */
  lemma DescendingCons(h: CheckRow, rest: seq<CheckRow>)
    requires Descending(rest)
    requires forall k :: 0 <= k < |rest| ==> rest[k].createdAt <= h.createdAt
    ensures Descending([h] + rest)
  {
    var s := [h] + rest;
    forall i, j | 0 <= i < j < |s|
      ensures s[i].createdAt >= s[j].createdAt
    {
      assert s[j] == rest[j - 1];
      if i > 0 {
        assert s[i] == rest[i - 1];
      }
    }
  }

  /** Inserting into a list ordered newest first keeps it ordered and adds exactly that check. */
  lemma {:induction false} InsertByAgeSorts(c: CheckRow, s: seq<CheckRow>)
    requires Descending(s)
    ensures Descending(InsertByAge(c, s))
    ensures multiset(InsertByAge(c, s)) == multiset(s) + multiset{c}
    decreases |s|
  {
    if s == [] || s[0].createdAt <= c.createdAt {
      DescendingCons(c, s);
    } else {
      var rest := InsertByAge(c, s[1..]);
      InsertByAgeSorts(c, s[1..]);
      InsertByAgeMembers(c, s[1..]);
      forall k | 0 <= k < |rest|
        ensures rest[k].createdAt <= s[0].createdAt
      {
        assert rest[k] in rest;
        if rest[k] != c {
          var m :| 0 <= m < |s[1..]| && s[1..][m] == rest[k];
          assert s[m + 1] == rest[k];
        }
      }
      DescendingCons(s[0], rest);
      assert s == [s[0]] + s[1..];
    }
  }

  /** The listing order is non-increasing in created_at and is a permutation of the checks. */
  lemma {:induction false} NewestFirstSorts(checks: seq<CheckRow>)
    ensures Descending(NewestFirst(checks))
    ensures multiset(NewestFirst(checks)) == multiset(checks)
    ensures |NewestFirst(checks)| == |checks|
    decreases |checks|
  {
    if checks != [] {
      NewestFirstSorts(checks[1..]);
      InsertByAgeSorts(checks[0], NewestFirst(checks[1..]));
      assert checks == [checks[0]] + checks[1..];
    }
    assert |multiset(NewestFirst(checks))| == |multiset(checks)|;
  }

  lemma {:induction false} InsertByAgeDistinct(c: CheckRow, s: seq<CheckRow>)
    requires DistinctIds(s)
    requires forall x :: x in s ==> x.id != c.id
    ensures DistinctIds(InsertByAge(c, s))
    decreases |s|
  {
    if s == [] || s[0].createdAt <= c.createdAt {
      var r := [c] + s;
      forall i, j | 0 <= i < j < |r|
        ensures r[i].id != r[j].id
      {
        if i == 0 {
          assert r[j] == s[j - 1];
          assert s[j - 1] in s;
        }
      }
    } else {
      InsertByAgeDistinct(c, s[1..]);
      var rest := InsertByAge(c, s[1..]);
      var r := [s[0]] + rest;
      forall i, j | 0 <= i < j < |r|
        ensures r[i].id != r[j].id
      {
        if i == 0 {
          InsertByAgeMembers(c, s[1..]);
          assert r[j] == rest[j - 1];
          assert rest[j - 1] in rest;
          if rest[j - 1] != c {
            var k :| 0 <= k < |s[1..]| && s[1..][k] == rest[j - 1];
            assert s[k + 1] == rest[j - 1];
          } else {
            assert s[0] in s;
          }
        }
      }
    }
  }

  lemma {:induction false} InsertByAgeMembers(c: CheckRow, s: seq<CheckRow>)
    ensures forall x :: x in InsertByAge(c, s) <==> x == c || x in s
    decreases |s|
  {
    if !(s == [] || s[0].createdAt <= c.createdAt) {
      InsertByAgeMembers(c, s[1..]);
      assert s == [s[0]] + s[1..];
    }
  }

  lemma {:induction false} NewestFirstMembers(checks: seq<CheckRow>)
    ensures forall x :: x in NewestFirst(checks) <==> x in checks
    decreases |checks|
  {
    if checks != [] {
      NewestFirstMembers(checks[1..]);
      InsertByAgeMembers(checks[0], NewestFirst(checks[1..]));
      assert checks == [checks[0]] + checks[1..];
    }
  }

  lemma {:induction false} NewestFirstDistinct(checks: seq<CheckRow>)
    requires DistinctIds(checks)
    ensures DistinctIds(NewestFirst(checks))
    decreases |checks|
  {
    if checks != [] {
      assert DistinctIds(checks[1..]) by {
        forall i, j | 0 <= i < j < |checks[1..]|
          ensures checks[1..][i].id != checks[1..][j].id
        {
          assert checks[1..][i] == checks[i + 1] && checks[1..][j] == checks[j + 1];
        }
      }
      NewestFirstDistinct(checks[1..]);
      NewestFirstMembers(checks[1..]);
      forall x | x in NewestFirst(checks[1..])
        ensures x.id != checks[0].id
      {
        var k :| 0 <= k < |checks[1..]| && checks[1..][k] == x;
        assert checks[k + 1] == x;
      }
      InsertByAgeDistinct(checks[0], NewestFirst(checks[1..]));
    }
  }

  /** When every check is strictly newer than the one inserted before it, newest first is reverse insertion order. */
  lemma {:induction false} NewestFirstOfIncreasing(checks: seq<CheckRow>)
    requires forall i, j :: 0 <= i < j < |checks| ==> checks[i].createdAt < checks[j].createdAt
    ensures |NewestFirst(checks)| == |checks|
    ensures forall k :: 0 <= k < |checks| ==> NewestFirst(checks)[k] == checks[|checks| - 1 - k]
    decreases |checks|
  {
    if checks != [] {
      var tail := checks[1..];
      NewestFirstOfIncreasing(tail);
      var sorted := NewestFirst(tail);
      forall x | x in sorted
        ensures checks[0].createdAt < x.createdAt
      {
        var k :| 0 <= k < |sorted| && sorted[k] == x;
        assert x == tail[|tail| - 1 - k] == checks[|checks| - 1 - k];
      }
      InsertOldest(checks[0], sorted);
      var r := sorted + [checks[0]];
      assert NewestFirst(checks) == r;
      forall k | 0 <= k < |checks|
        ensures r[k] == checks[|checks| - 1 - k]
      {
        if k < |sorted| {
          assert r[k] == tail[|tail| - 1 - k];
        }
      }
    }
  }

  lemma {:induction false} InsertOldest(c: CheckRow, s: seq<CheckRow>)
    requires forall x :: x in s ==> c.createdAt < x.createdAt
    ensures InsertByAge(c, s) == s + [c]
    decreases |s|
  {
    if s != [] {
      assert s[0] in s;
      InsertOldest(c, s[1..]);
      assert s == [s[0]] + s[1..];
    }
  }

  function Min(a: int, b: int): int
  {
    if a <= b then a else b
  }

  function Max(a: int, b: int): int
  {
    if a <= b then b else a
  }

  /** SQLite reads a negative OFFSET as zero. */
  function Offset(skip: int): nat
  {
    if skip < 0 then 0 else skip
  }

  /** OFFSET skip LIMIT limit as SQLite applies them; a negative LIMIT means no bound. */
  function Page<T>(s: seq<T>, skip: int, limit: int): (p: seq<T>)
    ensures |p| <= |s|
    ensures forall k :: 0 <= k < |p| ==> Offset(skip) + k < |s| && p[k] == s[Offset(skip) + k]
  {
    var rest := if Offset(skip) >= |s| then [] else s[Offset(skip)..];
    if limit < 0 || limit >= |rest| then rest else rest[..limit]
  }

  /** With a non-negative skip and limit, a page holds min(limit, max(0, n - skip)) rows; a negative limit keeps every row after the offset. */
  lemma PageSize<T>(s: seq<T>, skip: int, limit: int)
    ensures skip >= 0 && limit >= 0 ==> |Page(s, skip, limit)| == Min(limit, Max(0, |s| - skip))
    ensures skip < 0 ==> Page(s, skip, limit) == Page(s, 0, limit)
    ensures limit < 0 ==> |Page(s, skip, limit)| == Max(0, |s| - Offset(skip))
  {
  }

  /** The checks on one page of the listing, newest first. */
  function Listing(t: Tables, skip: int, limit: int): seq<CheckRow>
  {
    Page(NewestFirst(t.checks), skip, limit)
  }

  /** A page of a list ordered newest first with distinct ids is again such a list, drawn from it. */
  lemma PageOfDescending(s: seq<CheckRow>, skip: int, limit: int)
    requires Descending(s) && DistinctIds(s)
    ensures Descending(Page(s, skip, limit))
    ensures DistinctIds(Page(s, skip, limit))
    ensures forall c :: c in Page(s, skip, limit) ==> c in s
  {
    var p := Page(s, skip, limit);
    forall i, j | 0 <= i < j < |p|
      ensures p[i].createdAt >= p[j].createdAt && p[i].id != p[j].id
    {
      assert p[i] == s[Offset(skip) + i] && p[j] == s[Offset(skip) + j];
    }
    forall c | c in p
      ensures c in s
    {
      var k :| 0 <= k < |p| && p[k] == c;
      assert s[Offset(skip) + k] == c;
    }
  }

  /** A page has the expected number of rows, newest first, each a stored check appearing once. */
  lemma ListingProperties(t: Tables, skip: int, limit: int)
    requires WellFormed(t)
    ensures skip >= 0 && limit >= 0 ==> |Listing(t, skip, limit)| == Min(limit, Max(0, |t.checks| - skip))
    ensures Descending(Listing(t, skip, limit))
    ensures DistinctIds(Listing(t, skip, limit))
    ensures forall c :: c in Listing(t, skip, limit) ==> c in t.checks
  {
    var sorted := NewestFirst(t.checks);
    NewestFirstSorts(t.checks);
    NewestFirstMembers(t.checks);
    assert DistinctIds(t.checks);
    NewestFirstDistinct(t.checks);
    PageSize(sorted, skip, limit);
    PageOfDescending(sorted, skip, limit);
  }


  /** With strictly increasing timestamps, row k of a page is the (skip + k + 1)-th most recent check. */
  lemma ListingOfIncreasing(t: Tables, skip: nat, limit: int)
    requires forall i, j :: 0 <= i < j < |t.checks| ==> t.checks[i].createdAt < t.checks[j].createdAt
    ensures |Listing(t, skip, limit)| > 0 ==> skip + |Listing(t, skip, limit)| <= |t.checks|
    ensures forall k :: 0 <= k < |Listing(t, skip, limit)| ==>
              Listing(t, skip, limit)[k] == t.checks[|t.checks| - 1 - skip - k]
  {
    NewestFirstOfIncreasing(t.checks);
    var p := Listing(t, skip, limit);
    forall k | 0 <= k < |p|
      ensures p[k] == t.checks[|t.checks| - 1 - skip - k]
    {
      assert p[k] == NewestFirst(t.checks)[skip + k];
    }
  }

  /** DNSCheckCRUD.get_multi: a page of checks, each with all its findings. */
  function WithFindings(t: Tables, skip: int, limit: int): (page: seq<CheckWithFindings>)
    ensures |page| == |Listing(t, skip, limit)|
    ensures forall k :: 0 <= k < |page| ==>
              page[k] == CheckWithFindings(Listing(t, skip, limit)[k], FindingsOf(t.findings, Listing(t, skip, limit)[k].id))
  {
    var checks := Listing(t, skip, limit);
    seq(|checks|, k requires 0 <= k < |checks| => CheckWithFindings(checks[k], FindingsOf(t.findings, checks[k].id)))
  }

  /** DNSCheckCRUD.get_multi_with_count: a page of checks, each with the number of findings that refer to it. */
  function WithCounts(t: Tables, skip: int, limit: int): (page: seq<SummaryRow>)
    ensures |page| == |Listing(t, skip, limit)|
    ensures forall k :: 0 <= k < |page| ==>
              var c := Listing(t, skip, limit)[k];
              page[k] == SummaryRow(c.id, c.domain, c.createdAt, |FindingsOf(t.findings, c.id)|)
  {
    var checks := Listing(t, skip, limit);
    var page := seq(|checks|, k requires 0 <= k < |checks| =>
                      SummaryRow(checks[k].id, checks[k].domain, checks[k].createdAt, Count(t.findings, checks[k].id)));
    forall k | 0 <= k < |page|
      ensures page[k].resultsCount == |FindingsOf(t.findings, checks[k].id)|
    {
      CountIsFindings(t.findings, checks[k].id);
    }
    page
  }

  /** Every row of a listing page is a stored check with the number of its findings. */
  lemma WithCountsEntries(t: Tables, skip: int, limit: int)
    requires WellFormed(t)
    ensures var page := WithCounts(t, skip, limit);
      forall k :: 0 <= k < |page| ==>
        exists c :: c in t.checks && page[k] == SummaryRow(c.id, c.domain, c.createdAt, |FindingsOf(t.findings, c.id)|)
  {
    ListingProperties(t, skip, limit);
    var listing := Listing(t, skip, limit);
    var page := WithCounts(t, skip, limit);
    forall k | 0 <= k < |page|
      ensures exists c :: c in t.checks && page[k] == SummaryRow(c.id, c.domain, c.createdAt, |FindingsOf(t.findings, c.id)|)
    {
      assert listing[k] in listing;
    }
  }

  /** The counted page keeps the listing's order: newest first, each check at most once. */
  lemma WithCountsOrder(t: Tables, skip: int, limit: int)
    requires WellFormed(t)
    ensures var page := WithCounts(t, skip, limit);
      forall i, j :: 0 <= i < j < |page| ==> page[i].createdAt >= page[j].createdAt && page[i].id != page[j].id
  {
    ListingProperties(t, skip, limit);
    var listing := Listing(t, skip, limit);
    var page := WithCounts(t, skip, limit);
    forall i, j | 0 <= i < j < |page|
      ensures page[i].createdAt >= page[j].createdAt && page[i].id != page[j].id
    {
      assert page[i].createdAt == listing[i].createdAt && page[j].createdAt == listing[j].createdAt;
      assert page[i].id == listing[i].id && page[j].id == listing[j].id;
    }
  }

  // ---------------------------------------------------------------------
  // The database the CRUD objects write to
  // ---------------------------------------------------------------------

  /** One step of staging the suffix of a batch that starts at record i. */
  lemma StagedStep(checkId: nat, id: nat, records: seq<NewFinding>, i: nat)
    requires i < |records|
    ensures Staged(checkId, id, records[i..]) ==
      match RowOf(id, checkId, records[i])
      case Failure(e) => Failure(e)
      case Success(row) => Prepend([row], Staged(checkId, id + 1, records[i + 1..]))
  {
    assert records[i..][0] == records[i];
    assert records[i..][1..] == records[i + 1..];
  }

  class Database {
    var checks: seq<CheckRow>
    var findings: seq<FindingRow>

    function State(): Tables
      reads this
    {
      Tables(checks, findings)
    }

    ghost predicate Valid()
      reads this
    {
      WellFormed(State())
    }

    constructor ()
      ensures Valid() && State() == Tables([], [])
    {
      checks := [];
      findings := [];
    }

    /** DNSCheckCRUD.create: insert and commit a check; it comes back with its id and timestamp. */
    method Create(domain: string, now: nat) returns (check: CheckRow)
      requires Valid()
      modifies this
      ensures Valid()
      ensures State() == Inserted(old(State()), domain, now)
      ensures check == CheckRow(|old(checks)| + 1, domain, now)
    {
      InsertedAddsOne(State(), domain, now);
      check := CheckRow(|checks| + 1, domain, now);
      checks := checks + [check];
    }

    /**
     * DNSResultCRUD.create_bulk: one row per dictionary, in order, all for
     * `checkId`, committed together. The model converts each value as it
     * stages the row and abandons the batch at the first value the database
     * would refuse at commit; then nothing is written.
     */
    method CreateBulk(checkId: nat, records: seq<NewFinding>) returns (r: Result<seq<FindingRow>, StoreError>)
      requires Valid() && 1 <= checkId <= |checks|
      modifies this
      ensures Valid()
      ensures r == Staged(checkId, |old(findings)| + 1, records)
      ensures match r
              case Success(rows) => State() == Tables(old(checks), old(findings) + rows)
              case Failure(_) => State() == old(State())
    {
      var firstId := |findings| + 1;
      var pending: seq<FindingRow> := [];
      var i := 0;
      assert records[i..] == records;
      PrependNothing(Staged(checkId, firstId, records));
      while i < |records|
        invariant 0 <= i <= |records|
        invariant |pending| == i
        invariant Staged(checkId, firstId, records) == Prepend(pending, Staged(checkId, firstId + i, records[i..]))
        invariant checks == old(checks) && findings == old(findings)
      {
        StagedStep(checkId, firstId + i, records, i);
        var row := RowOf(firstId + i, checkId, records[i]);
        if row.Failure? {
          return Failure(row.error);
        }
        PrependTwice(pending, [row.value], Staged(checkId, firstId + i + 1, records[i + 1..]));
        pending := pending + [row.value];
        i := i + 1;
      }
      assert records[i..] == [];
      assert pending + [] == pending;
      assert Staged(checkId, firstId, records) == Success(pending);
      BulkInsertedAppends(State(), checkId, records);
      findings := findings + pending;
      r := Success(pending);
    }
  }
}
