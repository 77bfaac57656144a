/**
 * The body of `api_title_status`: one status record per title, in order,
 * each a field-by-field renaming of the title, with `processing` false
 * when the title does not say.
 */
module TitleStatus {
  import opened Wrappers
  import opened EcfrData

  /** One element of the response list. */
  datatype StatusRecord = StatusRecord(
    number: Option<int>,
    name: Option<string>,
    latestAmendment: Option<string>,
    latestIssue: Option<string>,
    upToDateAsOf: Option<string>,
    processing: bool)

  /**
   * The record appended for one title: each field copied from its source
   * field, and `processing` true exactly when the title says so.
   */
  function StatusOf(t: Title): (s: StatusRecord)
    ensures s.number == t.number && s.name == t.name
    ensures s.latestAmendment == t.latestAmendedOn && s.latestIssue == t.latestIssueDate
    ensures s.upToDateAsOf == t.upToDateAsOf
    ensures s.processing <==> t.processingInProgress == Some(true)
  {
    StatusRecord(t.number, t.name, t.latestAmendedOn, t.latestIssueDate, t.upToDateAsOf,
                 t.processingInProgress.GetOr(false))
  }

  /** The title a record was built from, with its processing flag stated. */
  function TitleOfStatus(s: StatusRecord): Title {
    Title(s.number, s.name, s.latestAmendment, s.latestIssue, s.upToDateAsOf, Some(s.processing))
  }

  /** The loop of `api_title_status`: appends one record per title. */
  method TitleStatuses(titles: seq<Title>) returns (status: seq<StatusRecord>)
    ensures |status| == |titles|
    ensures forall i :: 0 <= i < |titles| ==> status[i] == StatusOf(titles[i])
  {
    status := [];
    var i := 0;
    while i < |titles|
      invariant 0 <= i <= |titles|
      invariant |status| == i
      invariant forall m :: 0 <= m < i ==> status[m] == StatusOf(titles[m])
    {
      var t := titles[i];
      status := status + [StatusRecord(t.number, t.name, t.latestAmendedOn, t.latestIssueDate, t.upToDateAsOf,
                                       t.processingInProgress.GetOr(false))];
      i := i + 1;
    }
  }

  /** `api_title_status` with the outcome of the titles request as input. */
  method TitleStatusEndpoint(resp: Upstream<TitlesPayload>) returns (r: Outcome<seq<StatusRecord>>)
    ensures resp.Data? ==> r.Ok? && |r.value| == |TitlesOf(resp.body)|
    ensures resp.Data? ==> forall i :: 0 <= i < |TitlesOf(resp.body)| ==> r.value[i] == StatusOf(TitlesOf(resp.body)[i])
    ensures !resp.Data? ==> r == ServerError(resp.reason)
  {
    match resp
    case Data(body) =>
      var status := TitleStatuses(TitlesOf(body));
      return Ok(status);
    case Forbidden(reason) =>
      return ServerError(reason);
    case Failed(reason) =>
      return ServerError(reason);
  }

  /**
   * The projection loses nothing but an absent processing flag: a title
   * that states its flag is recovered from its record, and `processing` is
   * true exactly when the title says so.
   */
  lemma StatusRoundTrip(t: Title)
    ensures t.processingInProgress.Some? ==> TitleOfStatus(StatusOf(t)) == t
    ensures StatusOf(t).processing <==> t.processingInProgress == Some(true)
  {
  }

  /** Every record is the record of the title it describes. */
  lemma RecordRoundTrip(s: StatusRecord)
    ensures StatusOf(TitleOfStatus(s)) == s
  {
  }
}
