/**
 * The JSON the eCFR API returns, as far as the core reads it, and the
 * constants of backend/app.py. Every field the code reads with `.get` is an
 * `Option`; a missing list field defaults to the empty list where the code
 * says so.
 */
module EcfrData {
  import opened Wrappers

  /** One entry of an agency's `cfr_references`; only `title` is read. */
  datatype CfrReference = CfrReference(title: Option<int>)

  /** An entry of `agencies.json`; `children` are agencies of the same shape. */
  datatype Agency = Agency(
    name: Option<string>,
    cfrReferences: Option<seq<CfrReference>>,
    children: Option<seq<Agency>>)

  /** An entry of `titles.json`. */
  datatype Title = Title(
    number: Option<int>,
    name: Option<string>,
    latestAmendedOn: Option<string>,
    latestIssueDate: Option<string>,
    upToDateAsOf: Option<string>,
    processingInProgress: Option<bool>)

  datatype AgenciesPayload = AgenciesPayload(agencies: Option<seq<Agency>>)

  datatype TitlesPayload = TitlesPayload(titles: Option<seq<Title>>)

  /** An entry of `corrections.json`; the three fields the analysis reads. */
  datatype Correction = Correction(
    title: Option<int>,
    errorCorrected: Option<string>,
    correctiveAction: Option<string>)

  datatype CorrectionsPayload = CorrectionsPayload(corrections: Option<seq<Correction>>)

  /**
   * The outcome of one GET against the API: the parsed body, an HTTP 403, or
   * any other failure (non-2xx status, network error, unreadable body), with
   * the text of the exception Python would raise.
   */
  datatype Upstream<+T> = Data(body: T) | Forbidden(reason: string) | Failed(reason: string)

  /** The body of an endpoint that reports errors: its result, or `{"error": str(e)}` with status 500. */
  datatype Outcome<T> = Ok(value: T) | ServerError(message: string)

  /** The built-in sample agencies (`SAMPLE_DATA["agencies"]`). */
  datatype SampleChild = SampleChild(name: string, titles: seq<int>)
  datatype SampleAgency = SampleAgency(name: string, children: seq<SampleChild>, titles: seq<int>)

  const SAMPLE_AGENCIES: seq<SampleAgency> := [
    SampleAgency("Department of Agriculture", [SampleChild("Agricultural Marketing Service", [7])], [7]),
    SampleAgency("Department of Commerce", [], [15])
  ]

  /** The `message` of the error body built for an HTTP 403. */
  const ACCESS_REQUIRED_MESSAGE: string :=
    "You need to register your IP address to access the eCFR API. Please visit "
    + "https://www.ecfr.gov/reader-aids/ecfr-developer-resources/rest-api-interactive-documentation "
    + "and complete the registration process."

  function AgenciesOf(p: AgenciesPayload): seq<Agency> {
    p.agencies.GetOr([])
  }

  function TitlesOf(p: TitlesPayload): seq<Title> {
    p.titles.GetOr([])
  }

  function CorrectionsOf(p: CorrectionsPayload): seq<Correction> {
    p.corrections.GetOr([])
  }

  function RefsOf(a: Agency): seq<CfrReference> {
    a.cfrReferences.GetOr([])
  }

  function ChildrenOf(a: Agency): seq<Agency> {
    a.children.GetOr([])
  }

  function DigitChar(d: nat): (c: char)
    requires d < 10
    ensures '0' <= c <= '9'
  {
    (('0' as int) + d) as char
  }

  predicate IsDigits(s: string) {
    forall i :: 0 <= i < |s| ==> '0' <= s[i] <= '9'
  }

  /** The number a string of decimal digits spells, most significant digit first. */
  function DigitsValue(s: string): nat
    requires IsDigits(s)
  {
    if s == [] then 0 else 10 * DigitsValue(s[..|s| - 1]) + (s[|s| - 1] as int - '0' as int)
  }

  /** `str(n)` for `n >= 0`: the decimal digits of `n`, most significant first, no leading zero. */
  function NatToString(n: nat): (r: string)
    ensures |r| > 0 && IsDigits(r)
    ensures DigitsValue(r) == n
    ensures |r| > 1 ==> r[0] != '0'
    ensures r[0] == '0' ==> n == 0
  {
    if n < 10 then [DigitChar(n)]
    else
      var front := NatToString(n / 10);
      var r := front + [DigitChar(n % 10)];
      assert r[..|r| - 1] == front;
      r
  }

  /** Python's `str(v)` for an optional integer: `None` for a missing value. */
  function PyStr(v: Option<int>): (r: string)
    ensures v.None? ==> r == "None"
    ensures v.Some? && v.value >= 0 ==> |r| > 0 && IsDigits(r) && DigitsValue(r) == v.value && (|r| > 1 ==> r[0] != '0')
    ensures v.Some? && v.value < 0 ==> |r| > 1 && r[0] == '-' && IsDigits(r[1..]) && DigitsValue(r[1..]) == -v.value && r[1] != '0'
  {
    match v
    case None => "None"
    case Some(n) =>
      if n < 0 then
        var r := "-" + NatToString(-n);
        assert r[1..] == NatToString(-n);
        r
      else NatToString(n)
  }

  /** Different numbers have different decimal forms: the form spells its number. */
  lemma NatToStringInjective(a: nat, b: nat)
    requires NatToString(a) == NatToString(b)
    ensures a == b
  {
  }

  /** Distinct values print differently, so a key built with `str(...)` loses nothing. */
  lemma PyStrInjective(u: Option<int>, v: Option<int>)
    requires PyStr(u) == PyStr(v)
    ensures u == v
  {
    if u.None? || v.None? {
      assert PyStr(u)[0] == 'N';
    }
  }
}
