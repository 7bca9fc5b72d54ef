/** The request and response records of the API (DNSCheckCreate, DNSResultResponse, DNSCheckResponse, DNSCheckListResponse). */
module Schemas {
  import opened Wrappers
  import opened Store

  const MinDomainLength := 1
  const MaxDomainLength := 255

  /** DNSCheckCreate.domain: accepted exactly when it has 1 to 255 characters. */
  predicate ValidDomain(domain: string)
  {
    MinDomainLength <= |domain| <= MaxDomainLength
  }

  /** DNSResultResponse: a finding as the API shows it; the owning check's id is not part of it. */
  datatype FindingView = FindingView(id: nat, level: string, moduleName: string, tag: string, message: string)

  /** DNSCheckResponse: a check with its findings. */
  datatype CheckView = CheckView(id: nat, domain: string, createdAt: nat, results: seq<FindingView>)

  /** DNSCheckListResponse: a check with only the number of its findings. */
  datatype SummaryView = SummaryView(id: nat, domain: string, createdAt: nat, resultsCount: nat)

  function FindingViewOf(row: FindingRow): FindingView
  {
    FindingView(row.id, row.level, row.moduleName, row.tag, row.message)
  }

  /** DNSCheckResponse built from fields; `results` left out defaults to the empty list. */
  function CheckViewFrom(id: nat, domain: string, createdAt: nat, results: Option<seq<FindingView>>): (v: CheckView)
    ensures v.id == id && v.domain == domain && v.createdAt == createdAt
    ensures results.None? ==> v.results == []
    ensures results.Some? ==> v.results == results.value
  {
    CheckView(id, domain, createdAt, if results.Some? then results.value else [])
  }

  /** DNSCheckListResponse built from fields; `results_count` left out defaults to 0. */
  function SummaryViewFrom(id: nat, domain: string, createdAt: nat, resultsCount: Option<nat>): (v: SummaryView)
    ensures v.id == id && v.domain == domain && v.createdAt == createdAt
    ensures resultsCount.None? ==> v.resultsCount == 0
    ensures resultsCount.Some? ==> v.resultsCount == resultsCount.value
  {
    SummaryView(id, domain, createdAt, if resultsCount.Some? then resultsCount.value else 0)
  }

  /** DNSCheckResponse.model_validate on a loaded check: one view per finding, in the relationship's order. */
  function CheckViewOf(c: CheckWithFindings): (v: CheckView)
    ensures v.id == c.check.id && v.domain == c.check.domain && v.createdAt == c.check.createdAt
    ensures |v.results| == |c.results|
    ensures forall k :: 0 <= k < |v.results| ==> v.results[k] == FindingViewOf(c.results[k])
  {
    CheckViewFrom(c.check.id, c.check.domain, c.check.createdAt,
                  Some(seq(|c.results|, k requires 0 <= k < |c.results| => FindingViewOf(c.results[k]))))
  }

  /** DNSCheckListResponse(**row): the dictionary's four values, unchanged. */
  function SummaryViewOf(row: SummaryRow): SummaryView
  {
    SummaryViewFrom(row.id, row.domain, row.createdAt, Some(row.resultsCount))
  }
}
