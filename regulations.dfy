/**
 * `fetch_ecfr_data`: joins each agency's CFR references against the title
 * list and emits one regulation record per reference that finds a title,
 * or hands back the sample agencies when either fetch failed.
 */
module Regulations {
  import opened Wrappers
  import opened EcfrData
  import opened Lists
  import opened Words

  /**
   * One element of the list `fetch_ecfr_data` returns: a regulation record
   * built by the join, or, on the fallback path, one of the sample agency
   * dictionaries, returned as they are (they have no `agency`, `text` or
   * `last_updated` key).
   */
  datatype Row =
    | Regulation(agency: string, text: string, lastUpdated: Option<string>)
    | SampleRow(sample: SampleAgency)

  /** `SAMPLE_DATA.get("agencies", [])`, as the rows of the fallback path. */
  function FallbackRows(): (r: seq<Row>)
    ensures |r| == |SAMPLE_AGENCIES|
    ensures forall i :: 0 <= i < |r| ==> r[i] == SampleRow(SAMPLE_AGENCIES[i])
  {
    [SampleRow(SAMPLE_AGENCIES[0]), SampleRow(SAMPLE_AGENCIES[1])]
  }

  /** Index of the first title whose `number` equals `num`, if any. */
  function FirstMatch(titles: seq<Title>, num: Option<int>): (r: Option<nat>)
    ensures r.Some? ==> r.value < |titles| && titles[r.value].number == num
    ensures r.Some? ==> forall k :: 0 <= k < r.value ==> titles[k].number != num
    ensures r.None? ==> forall k :: 0 <= k < |titles| ==> titles[k].number != num
  {
    if titles == [] then None
    else if titles[0].number == num then Some(0)
    else match FirstMatch(titles[1..], num)
      case None => None
      case Some(k) => Some(k + 1)
  }

  /**
   * The record text `f"Title {title_num} - {title.get('name', '')}"`: the
   * word "Title", then one word for the title number (`str(title_num)`
   * itself, or its digits when the number is negative, since `\w` does not
   * match the minus sign), then the words of the name.
   */
  function TitleText(num: Option<int>, name: Option<string>): (r: string)
    ensures WordCount(r) == 2 + WordCount(name.GetOr(""))
    ensures FindAllWords(r)[0] == "Title"
    ensures num.None? || num.value >= 0 ==> FindAllWords(r)[1] == PyStr(num)
    ensures num.Some? && num.value < 0 ==> FindAllWords(r)[1] == NatToString(-num.value)
    ensures FindAllWords(r)[2..] == FindAllWords(name.GetOr(""))
  {
    TitleTextWords(num, name.GetOr(""));
    PyStrOneWord(num);
    "Title " + PyStr(num) + " - " + name.GetOr("")
  }

  /**
   * `str(v)` followed by " - " holds a single word: `str(v)` itself, or the
   * digits after the minus sign of a negative number.
   */
  lemma PyStrOneWord(v: Option<int>)
    ensures v.None? || v.value >= 0 ==> FindAllWords(PyStr(v) + " - ") == [PyStr(v)]
    ensures v.Some? && v.value < 0 ==> FindAllWords(PyStr(v) + " - ") == [NatToString(-v.value)]
  {
    var p := PyStr(v);
    assert FindAllWords(" - ") == [];
    if v.Some? && v.value < 0 {
      var d := p[1..];
      assert d == NatToString(-v.value);
      assert AllWordChars(d);
      assert p + " - " == ['-'] + (d + " - ");
      FindAllWordsSkip('-', d + " - ");
      FindAllWordsRun(d, " - ");
    } else {
      assert AllWordChars(p);
      FindAllWordsRun(p, " - ");
    }
  }

  /** A word, a space, then text that holds one word and ends outside it, then a name. */
  lemma ThreePartWords(w: string, mid: string, name: string)
    requires |w| > 0 && AllWordChars(w)
    requires |mid| > 0 && !IsWordChar(mid[|mid| - 1]) && |FindAllWords(mid)| == 1
    ensures FindAllWords(w + " " + mid + name) == [w] + FindAllWords(mid) + FindAllWords(name)
  {
    var rest := mid + name;
    assert w + " " + mid + name == w + ([' '] + rest);
    FindAllWordsRun(w, [' '] + rest);
    FindAllWordsSkip(' ', rest);
    FindAllWordsAppend(mid, name);
  }

  lemma TitleTextWords(num: Option<int>, name: string)
    ensures |FindAllWords("Title " + PyStr(num) + " - " + name)| == 2 + |FindAllWords(name)|
    ensures FindAllWords("Title " + PyStr(num) + " - " + name)[0] == "Title"
    ensures |FindAllWords(PyStr(num) + " - ")| == 1
    ensures FindAllWords("Title " + PyStr(num) + " - " + name)[1] == FindAllWords(PyStr(num) + " - ")[0]
    ensures FindAllWords("Title " + PyStr(num) + " - " + name)[2..] == FindAllWords(name)
  {
    var mid := PyStr(num) + " - ";
    assert "Title " + PyStr(num) + " - " + name == "Title" + " " + mid + name;
    PyStrOneWord(num);
    ThreePartWords("Title", mid, name);
  }


  /**
   * `agency.get('name', 'Unknown')`: the agency's own name when it has one;
   * "Unknown" exactly when it has none or is itself named "Unknown".
   */
  function AgencyName(a: Agency): (r: string)
    ensures a.name.Some? ==> r == a.name.value
    ensures r == "Unknown" <==> a.name.None? || a.name == Some("Unknown")
  {
    a.name.GetOr("Unknown")
  }

  /** What one reference contributes: the record for its first matching title, or nothing. */
  function RecordFor(agencyName: string, ref: CfrReference, titles: seq<Title>): seq<Row> {
    match FirstMatch(titles, ref.title)
    case None => []
    case Some(k) => [Regulation(agencyName, TitleText(ref.title, titles[k].name), titles[k].latestAmendedOn)]
  }

  function RecordsFn(agencyName: string, titles: seq<Title>): CfrReference -> seq<Row> {
    ref => RecordFor(agencyName, ref, titles)
  }

  /** The records of one agency, reference by reference. */
  function RefRecords(agencyName: string, refs: seq<CfrReference>, titles: seq<Title>): seq<Row> {
    FlatMap(refs, RecordsFn(agencyName, titles))
  }

  /** The records of one agency: its references in order, under its name. */
  function AgencyRecords(a: Agency, titles: seq<Title>): seq<Row> {
    RefRecords(AgencyName(a), RefsOf(a), titles)
  }

  function AgencyRecordsFn(titles: seq<Title>): Agency -> seq<Row> {
    a => AgencyRecords(a, titles)
  }

  /**
   * The join over all agencies, agency by agency: at most one record per
   * (agency, reference) pair, and exactly one per pair when every reference
   * finds a title.
   */
  function JoinAgencies(agencies: seq<Agency>, titles: seq<Title>): (r: seq<Row>)
    ensures |r| <= TotalRefs(agencies)
    ensures (forall i, j :: 0 <= i < |agencies| && 0 <= j < |RefsOf(agencies[i])|
               ==> FirstMatch(titles, RefsOf(agencies[i])[j].title).Some?)
        ==> |r| == TotalRefs(agencies)
  {
    AgencyRecordsCount(agencies, titles);
    FlatMap(agencies, AgencyRecordsFn(titles))
  }

  function RefsFn(): Agency -> seq<CfrReference> {
    a => RefsOf(a)
  }

  /** Number of references over all agencies. */
  function TotalRefs(agencies: seq<Agency>): nat {
    SumLengths(agencies, RefsFn())
  }

  /**
   * A reference that finds a title yields exactly one record, from the FIRST
   * title carrying its number, with text "Title {n} - {name}" and that
   * title's `latest_amended_on`.
   */
  lemma RecordForSpec(agencyName: string, ref: CfrReference, titles: seq<Title>, k: nat)
    requires k < |titles| && titles[k].number == ref.title
    requires forall m :: 0 <= m < k ==> titles[m].number != ref.title
    ensures RecordFor(agencyName, ref, titles)
         == [Regulation(agencyName, "Title " + PyStr(ref.title) + " - " + titles[k].name.GetOr(""), titles[k].latestAmendedOn)]
  {
    var f := FirstMatch(titles, ref.title);
    assert f.Some?;
    assert !(f.value < k) && !(k < f.value);
  }

  /** A reference yields no record exactly when no title carries its number, and never more than one. */
  lemma RecordForNone(agencyName: string, ref: CfrReference, titles: seq<Title>)
    ensures |RecordFor(agencyName, ref, titles)| <= 1
    ensures RecordFor(agencyName, ref, titles) == [] <==> forall k :: 0 <= k < |titles| ==> titles[k].number != ref.title
  {
  }

  /** Output order follows agency order: the join of a concatenation is the concatenation of the joins. */
  lemma JoinAppend(a1: seq<Agency>, a2: seq<Agency>, titles: seq<Title>)
    ensures JoinAgencies(a1 + a2, titles) == JoinAgencies(a1, titles) + JoinAgencies(a2, titles)
  {
    FlatMapAppend(a1, a2, AgencyRecordsFn(titles));
  }

  /** Within an agency, output order follows reference order. */
  lemma RefRecordsAppend(name: string, r1: seq<CfrReference>, r2: seq<CfrReference>, titles: seq<Title>)
    ensures RefRecords(name, r1 + r2, titles) == RefRecords(name, r1, titles) + RefRecords(name, r2, titles)
  {
    FlatMapAppend(r1, r2, RecordsFn(name, titles));
  }

  lemma AgencyRecordsCount(agencies: seq<Agency>, titles: seq<Title>)
    ensures |FlatMap(agencies, AgencyRecordsFn(titles))| <= TotalRefs(agencies)
    ensures (forall i, j :: 0 <= i < |agencies| && 0 <= j < |RefsOf(agencies[i])|
               ==> FirstMatch(titles, RefsOf(agencies[i])[j].title).Some?)
        ==> |FlatMap(agencies, AgencyRecordsFn(titles))| == TotalRefs(agencies)
  {
    var f := AgencyRecordsFn(titles);
    forall i | 0 <= i < |agencies|
      ensures |f(agencies[i])| <= |RefsFn()(agencies[i])|
      ensures (forall j :: 0 <= j < |RefsOf(agencies[i])| ==> FirstMatch(titles, RefsOf(agencies[i])[j].title).Some?)
          ==> |f(agencies[i])| == |RefsFn()(agencies[i])|
    {
      var a := agencies[i];
      forall j | 0 <= j < |RefsOf(a)| ensures |RecordsFn(AgencyName(a), titles)(RefsOf(a)[j])| <= 1 {
        RecordForNone(AgencyName(a), RefsOf(a)[j], titles);
      }
      FlatMapAtMostOne(RefsOf(a), RecordsFn(AgencyName(a), titles));
    }
    FlatMapLength(agencies, f);
    SumLengthsLe(agencies, f, RefsFn());
  }

  /**
   * Every record of the join comes from some agency and one of its
   * references, and every reference that finds a title contributes its record.
   */
  lemma JoinMembers(agencies: seq<Agency>, titles: seq<Title>, r: Row)
    ensures r in JoinAgencies(agencies, titles)
        <==> exists i, j :: 0 <= i < |agencies| && 0 <= j < |RefsOf(agencies[i])|
               && r in RecordFor(AgencyName(agencies[i]), RefsOf(agencies[i])[j], titles)
  {
    FlatMapMembers(agencies, AgencyRecordsFn(titles), r);
    forall i | 0 <= i < |agencies|
      ensures r in AgencyRecords(agencies[i], titles)
          <==> exists j :: 0 <= j < |RefsOf(agencies[i])| && r in RecordFor(AgencyName(agencies[i]), RefsOf(agencies[i])[j], titles)
    {
      FlatMapMembers(RefsOf(agencies[i]), RecordsFn(AgencyName(agencies[i]), titles), r);
    }
  }

  lemma RefRecordsStep(name: string, refs: seq<CfrReference>, j: nat, titles: seq<Title>)
    requires j < |refs|
    ensures RefRecords(name, refs[..j + 1], titles) == RefRecords(name, refs[..j], titles) + RecordFor(name, refs[j], titles)
  {
    assert refs[..j + 1] == refs[..j] + [refs[j]];
    RefRecordsAppend(name, refs[..j], [refs[j]], titles);
  }

  lemma JoinStep(agencies: seq<Agency>, i: nat, titles: seq<Title>)
    requires i < |agencies|
    ensures JoinAgencies(agencies[..i + 1], titles) == JoinAgencies(agencies[..i], titles) + AgencyRecords(agencies[i], titles)
  {
    assert agencies[..i + 1] == agencies[..i] + [agencies[i]];
    JoinAppend(agencies[..i], [agencies[i]], titles);
  }

  /**
   * The innermost loop of `fetch_ecfr_data`: scans the titles for the
   * reference's number, appends one record at the first match and stops.
   */
  method AppendRecordFor(regulations: seq<Row>, agencyName: string, ref: CfrReference, titles: seq<Title>)
    returns (out: seq<Row>)
    ensures out == regulations + RecordFor(agencyName, ref, titles)
  {
    var num := ref.title;
    var k := 0;
    while k < |titles|
      invariant 0 <= k <= |titles|
      invariant forall m :: 0 <= m < k ==> titles[m].number != num
    {
      if titles[k].number == num {
        RecordForSpec(agencyName, ref, titles, k);
        return regulations + [Regulation(agencyName, TitleText(num, titles[k].name), titles[k].latestAmendedOn)];
      }
      k := k + 1;
    }
    RecordForNone(agencyName, ref, titles);
    return regulations;
  }

  /**
   * `fetch_ecfr_data`, with the two API responses as inputs: an error from
   * either fetch gives the sample agencies; otherwise the nested loops of the
   * join, with the early `break` at the first matching title.
   */
  method FetchEcfrData(agenciesResp: Upstream<AgenciesPayload>, titlesResp: Upstream<TitlesPayload>)
    returns (regulations: seq<Row>)
    ensures !agenciesResp.Data? || !titlesResp.Data? ==> regulations == FallbackRows()
    ensures agenciesResp.Data? && titlesResp.Data?
        ==> regulations == JoinAgencies(AgenciesOf(agenciesResp.body), TitlesOf(titlesResp.body))
  {
    if !agenciesResp.Data? {
      return FallbackRows();
    }
    if !titlesResp.Data? {
      return FallbackRows();
    }
    var agencies := AgenciesOf(agenciesResp.body);
    var titles := TitlesOf(titlesResp.body);
    regulations := [];
    var i := 0;
    while i < |agencies|
      invariant 0 <= i <= |agencies|
      invariant regulations == JoinAgencies(agencies[..i], titles)
    {
      var agencyName := AgencyName(agencies[i]);
      var refs := RefsOf(agencies[i]);
      ghost var before := regulations;
      var j := 0;
      while j < |refs|
        invariant 0 <= j <= |refs|
        invariant regulations == before + RefRecords(agencyName, refs[..j], titles)
      {
        RefRecordsStep(agencyName, refs, j, titles);
        regulations := AppendRecordFor(regulations, agencyName, refs[j], titles);
        j := j + 1;
      }
      assert refs[..j] == refs;
      JoinStep(agencies, i, titles);
      i := i + 1;
    }
    assert agencies[..i] == agencies;
  }
}
