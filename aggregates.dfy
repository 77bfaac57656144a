/**
 * `analyze_word_counts` and `historical_changes`: the two aggregators over
 * the list `fetch_ecfr_data` returns. Each counts into a defaultdict in one
 * pass and returns the items sorted (by count descending, or by key).
 */
module Aggregates {
  import opened Wrappers
  import opened Counting
  import opened Sorting
  import opened Words
  import opened Regulations

  /**
   * `reg.get('agency', 'Unknown')`: the sample agencies of the fallback have
   * no `agency` key, so their key is "Unknown", as is a record's whose
   * agency is named "Unknown".
   */
  function AgencyKey(row: Row): (key: string)
    ensures row.Regulation? ==> key == row.agency
    ensures key == "Unknown" <==> row.SampleRow? || row.agency == "Unknown"
  {
    match row
    case Regulation(agency, _, _) => agency
    case SampleRow(_) => "Unknown"
  }

  /** `reg.get('text', '')`: a sample agency has no text, so it adds no words. */
  function TextOf(row: Row): (text: string)
    ensures row.Regulation? ==> text == row.text
    ensures row.SampleRow? ==> WordCount(text) == 0
  {
    match row
    case Regulation(_, text, _) => text
    case SampleRow(_) => ""
  }

  /** `reg.get('last_updated')`: a sample agency has no date. */
  function LastUpdatedOf(row: Row): (date: Option<string>)
    ensures row.Regulation? ==> date == row.lastUpdated
    ensures row.SampleRow? ==> date.None?
  {
    match row
    case Regulation(_, _, lastUpdated) => lastUpdated
    case SampleRow(_) => None
  }

  /** What each record adds to the word counter: its agency and the number of `\w+` matches in its text. */
  function WordObservations(regs: seq<Row>): (obs: seq<(string, nat)>)
    ensures |obs| == |regs|
    ensures forall i :: 0 <= i < |regs| ==> obs[i] == (AgencyKey(regs[i]), WordCount(TextOf(regs[i])))
  {
    seq(|regs|, i requires 0 <= i < |regs| => (AgencyKey(regs[i]), WordCount(TextOf(regs[i]))))
  }

  lemma WordObservationsStep(regs: seq<Row>, n: nat)
    requires n < |regs|
    ensures WordObservations(regs)[..n + 1]
         == WordObservations(regs)[..n] + [(AgencyKey(regs[n]), |FindAllWords(TextOf(regs[n]))|)]
  {
  }

  /** What `analyze_word_counts` returns, as a group-by followed by the stable sort. */
  function WordCountsOf(regs: seq<Row>): seq<(string, nat)> {
    SortByCountDesc(Tally(WordObservations(regs)))
  }

  /** Counts never increase along the result, and agencies with equal counts keep their first-seen order. */
  lemma WordCountsOrdered(regs: seq<Row>)
    ensures NonIncreasing(WordCountsOf(regs))
    ensures forall c :: WithCount(WordCountsOf(regs), c) == WithCount(Tally(WordObservations(regs)), c)
  {
    SortByCountDescNonIncreasing(Tally(WordObservations(regs)));
    forall c ensures WithCount(WordCountsOf(regs), c) == WithCount(Tally(WordObservations(regs)), c) {
      SortByCountDescStable(Tally(WordObservations(regs)), c);
    }
  }

  lemma AgencyKeys(regs: seq<Row>)
    ensures forall a :: a in KeysOf(WordObservations(regs)) <==> exists i :: 0 <= i < |regs| && AgencyKey(regs[i]) == a
  {
    var obs := WordObservations(regs);
    forall a ensures a in KeysOf(obs) <==> exists i :: 0 <= i < |regs| && AgencyKey(regs[i]) == a {
      if a in KeysOf(obs) {
        var i :| 0 <= i < |obs| && KeysOf(obs)[i] == a;
        assert obs[i].0 == AgencyKey(regs[i]);
      }
      if exists i :: 0 <= i < |regs| && AgencyKey(regs[i]) == a {
        var i :| 0 <= i < |regs| && AgencyKey(regs[i]) == a;
        assert KeysOf(obs)[i] == a;
      }
    }
  }

  /** The keys are exactly the distinct agency names (with "Unknown" for a row without one). */
  lemma WordCountsKeys(regs: seq<Row>)
    ensures Distinct(KeysOf(WordCountsOf(regs)))
    ensures forall a :: a in KeysOf(WordCountsOf(regs)) <==> exists i :: 0 <= i < |regs| && AgencyKey(regs[i]) == a
  {
    var obs := WordObservations(regs);
    TallyKeys(obs);
    SortByCountDescDistinct(Tally(obs));
    SameItemsSameKeys(Tally(obs), WordCountsOf(regs));
    AgencyKeys(regs);
  }

  /** Each agency's count is the sum of the word counts of its records. */
  lemma WordCountsValues(regs: seq<Row>)
    ensures forall i :: 0 <= i < |WordCountsOf(regs)| ==>
              WordCountsOf(regs)[i].1 == SumFor(WordObservations(regs), WordCountsOf(regs)[i].0)
  {
    var obs := WordObservations(regs);
    var result := WordCountsOf(regs);
    TallyKeys(obs);
    forall i | 0 <= i < |result| ensures result[i].1 == SumFor(obs, result[i].0) {
      assert result[i] in Tally(obs);
    }
  }

  /**
   * `analyze_word_counts`: counts into a defaultdict record by record, then
   * sorts the items by count, descending and stable.
   */
  method AnalyzeWordCounts(regs: seq<Row>) returns (result: seq<(string, nat)>)
    ensures result == WordCountsOf(regs)
  {
    ghost var obs := WordObservations(regs);
    var counter := new Counter<string>();
    var n := 0;
    while n < |regs|
      invariant 0 <= n <= |regs|
      invariant counter.Valid() && counter.history == obs[..n]
    {
      var reg := regs[n];
      var agency := AgencyKey(reg);
      var text := TextOf(reg);
      var words := FindAllWords(text);
      WordObservationsStep(regs, n);
      counter.Add(agency, |words|);
      n := n + 1;
    }
    assert obs[..n] == obs;
    ItemsAreTally(counter);
    result := SortByCountDesc(counter.Items());
  }

  /** The key `historical_changes` uses when a record has no usable date. */
  const UNKNOWN: string := "unknown"

  /** What `strftime("%Y-%m-%d")` can produce: digits and dashes (never the word "unknown"). */
  predicate IsDateKey(s: string) {
    |s| > 0 && forall i :: 0 <= i < |s| ==> ('0' <= s[i] <= '9') || s[i] == '-'
  }

  type DateKey = s: string | IsDateKey(s) witness "1970-01-01"

  /**
   * The bucket of one record. `parse` stands for
   * `datetime.fromisoformat(s).strftime("%Y-%m-%d")`, `None` where
   * `fromisoformat` raises `ValueError`. A missing or empty date is falsy.
   */
  function DateBucket(row: Row, parse: string -> Option<DateKey>): string {
    BucketOfDate(LastUpdatedOf(row), parse)
  }

  /**
   * The bucket of a date: "unknown" exactly when the date is missing, empty
   * or does not parse, and otherwise the parsed `YYYY-MM-DD` key.
   */
  function BucketOfDate(updateDate: Option<string>, parse: string -> Option<DateKey>): (bucket: string)
    ensures bucket == UNKNOWN <==> updateDate.None? || updateDate == Some("") || parse(updateDate.value).None?
    ensures bucket != UNKNOWN ==> IsDateKey(bucket) && Some(bucket) == parse(updateDate.value)
  {
    match updateDate
    case None => UNKNOWN
    case Some(s) =>
      if s == "" then UNKNOWN
      else match parse(s)
        case Some(d) => assert d[0] != UNKNOWN[0]; d
        case None => UNKNOWN
  }

  /** The body of the loop of `historical_changes` up to the increment: the `if update_date` test and the `try`/`except ValueError`. */
  method ChooseBucket(updateDate: Option<string>, parse: string -> Option<DateKey>) returns (dateKey: string)
    ensures dateKey == UNKNOWN <==> updateDate.None? || updateDate == Some("") || parse(updateDate.value).None?
    ensures dateKey == BucketOfDate(updateDate, parse)
  {
    if updateDate.Some? && updateDate.value != "" {
      var parsed := parse(updateDate.value);
      if parsed.Some? {
        dateKey := parsed.value;
        assert dateKey[0] != UNKNOWN[0];
      } else {
        dateKey := UNKNOWN;
      }
    } else {
      dateKey := UNKNOWN;
    }
  }

  /** Every date key sorts before "unknown" ('u' follows every digit and '-'). */
  lemma DateKeyBeforeUnknown(d: DateKey)
    ensures StrLt(d, UNKNOWN)
  {
    assert '0' <= d[0] <= '9' || d[0] == '-';
  }

  /** Each record increments one bucket by one. */
  function DateObservations(regs: seq<Row>, parse: string -> Option<DateKey>): (obs: seq<(string, nat)>)
    ensures |obs| == |regs|
    ensures forall i :: 0 <= i < |regs| ==> obs[i] == (DateBucket(regs[i], parse), 1)
  {
    seq(|regs|, i requires 0 <= i < |regs| => (DateBucket(regs[i], parse), 1))
  }

  /** What `historical_changes` returns, as a group-by followed by the sort on keys. */
  function HistogramOf(regs: seq<Row>, parse: string -> Option<DateKey>): seq<(string, nat)> {
    SortByKey(Tally(DateObservations(regs, parse)))
  }

  lemma BucketKeys(regs: seq<Row>, parse: string -> Option<DateKey>)
    ensures forall k :: k in KeysOf(DateObservations(regs, parse)) <==> exists i :: 0 <= i < |regs| && DateBucket(regs[i], parse) == k
  {
    var obs := DateObservations(regs, parse);
    forall k ensures k in KeysOf(obs) <==> exists i :: 0 <= i < |regs| && DateBucket(regs[i], parse) == k {
      if k in KeysOf(obs) {
        var i :| 0 <= i < |obs| && KeysOf(obs)[i] == k;
        assert obs[i] == (DateBucket(regs[i], parse), 1);
      }
      if exists i :: 0 <= i < |regs| && DateBucket(regs[i], parse) == k {
        var i :| 0 <= i < |regs| && DateBucket(regs[i], parse) == k;
        assert KeysOf(obs)[i] == k;
      }
    }
  }

  /** Every record is counted once: the buckets add up to the number of records. */
  lemma HistogramTotal(regs: seq<Row>, parse: string -> Option<DateKey>)
    ensures Total(HistogramOf(regs, parse)) == |regs|
  {
    var obs := DateObservations(regs, parse);
    TallyTotal(obs);
    UnitTotal(obs);
    TotalPermutation(Tally(obs), HistogramOf(regs, parse));
  }

  /** The keys are exactly the buckets of the records, and each holds the number of records in it. */
  lemma HistogramKeys(regs: seq<Row>, parse: string -> Option<DateKey>)
    ensures forall k :: k in KeysOf(HistogramOf(regs, parse)) <==> exists i :: 0 <= i < |regs| && DateBucket(regs[i], parse) == k
    ensures forall i :: 0 <= i < |HistogramOf(regs, parse)| ==>
              HistogramOf(regs, parse)[i].1 == SumFor(DateObservations(regs, parse), HistogramOf(regs, parse)[i].0)
  {
    var obs := DateObservations(regs, parse);
    var result := HistogramOf(regs, parse);
    TallyKeys(obs);
    SameItemsSameKeys(Tally(obs), result);
    BucketKeys(regs, parse);
    forall i | 0 <= i < |result| ensures result[i].1 == SumFor(obs, result[i].0) {
      assert result[i] in Tally(obs);
    }
  }

  /** Keys strictly ascend, so "unknown", when present, is the last bucket. */
  lemma HistogramOrdered(regs: seq<Row>, parse: string -> Option<DateKey>)
    ensures Ascending(HistogramOf(regs, parse))
    ensures forall i :: 0 <= i < |HistogramOf(regs, parse)| && HistogramOf(regs, parse)[i].0 == UNKNOWN ==>
              i == |HistogramOf(regs, parse)| - 1
  {
    var obs := DateObservations(regs, parse);
    var result := HistogramOf(regs, parse);
    TallyKeys(obs);
    SortByKeyAscending(Tally(obs));
    HistogramKeys(regs, parse);
    forall i | 0 <= i < |result| && result[i].0 == UNKNOWN ensures i == |result| - 1 {
      UnknownIsLast(result, regs, parse, i);
    }
  }

  /** In a key-ascending list of buckets, "unknown" can only be the last key. */
  lemma UnknownIsLast(result: seq<(string, nat)>, regs: seq<Row>, parse: string -> Option<DateKey>, i: nat)
    requires Ascending(result)
    requires forall k :: k in KeysOf(result) ==> exists m :: 0 <= m < |regs| && DateBucket(regs[m], parse) == k
    requires i < |result| && result[i].0 == UNKNOWN
    ensures i == |result| - 1
  {
    if i < |result| - 1 {
      var last := result[|result| - 1].0;
      assert StrLt(UNKNOWN, last);
      assert KeysOf(result)[|result| - 1] == last;
      assert last in KeysOf(result);
      var m :| 0 <= m < |regs| && DateBucket(regs[m], parse) == last;
      StrLtIrreflexive(UNKNOWN);
      assert last != UNKNOWN;
      var d := parse(LastUpdatedOf(regs[m]).value).value;
      assert last == d;
      DateKeyBeforeUnknown(d);
      StrLtTransitive(UNKNOWN, last, UNKNOWN);
    }
  }

  /**
   * `historical_changes`: counts each record into the bucket of its date (or
   * "unknown"), then sorts the items by key.
   */
  method HistoricalChanges(regs: seq<Row>, parse: string -> Option<DateKey>) returns (result: seq<(string, nat)>)
    ensures result == HistogramOf(regs, parse)
  {
    ghost var obs := DateObservations(regs, parse);
    var counter := new Counter<string>();
    var n := 0;
    while n < |regs|
      invariant 0 <= n <= |regs|
      invariant counter.Valid() && counter.history == obs[..n]
    {
      var reg := regs[n];
      var dateKey := ChooseBucket(LastUpdatedOf(reg), parse);
      assert obs[..n + 1] == obs[..n] + [(dateKey, 1)];
      counter.Add(dateKey, 1);
      n := n + 1;
    }
    assert obs[..n] == obs;
    ItemsAreTally(counter);
    result := SortByKey(counter.Items());
  }

  /**
   * On the fallback path the sample agencies carry no `agency`, `text` or
   * `last_updated`: the word counts are a single "Unknown" entry with no
   * words, and every row lands in the "unknown" bucket.
   */
  lemma FallbackWordCounts()
    ensures WordCountsOf(FallbackRows()) == [("Unknown", 0)]
  {
    assert FindAllWords("") == [];
    assert WordObservations(FallbackRows()) == [("Unknown", 0), ("Unknown", 0)];
    TallySameKey(("Unknown", 0), ("Unknown", 0));
  }

  lemma FallbackHistogram(parse: string -> Option<DateKey>)
    ensures HistogramOf(FallbackRows(), parse) == [(UNKNOWN, 2)]
  {
    assert DateObservations(FallbackRows(), parse) == [(UNKNOWN, 1), (UNKNOWN, 1)];
    TallySameKey((UNKNOWN, 1), (UNKNOWN, 1));
  }

  /** The text the join builds for a title with a one-word name has three words. */
  lemma RecordTextWordCount(num: Option<int>, name: string)
    requires |name| > 0 && AllWordChars(name)
    ensures WordCount(TitleText(num, Some(name))) == 3
  {
    FindAllWordsRun(name, "");
    assert name + "" == name;
  }

  /**
   * Two records of agency "A", for title 7 with a one-word name such as
   * "Agriculture" (amended 2020-01-01) and title 9 with a one-word name such
   * as "Food" (no date), give six words for "A" and one change in each of
   * the buckets "2020-01-01" and "unknown". (The names and texts are
   * parameters so that the verifier does not evaluate the scan on literals.)
   */
  lemma ExampleWordCounts(name1: string, name2: string)
    requires |name1| > 0 && AllWordChars(name1) && |name2| > 0 && AllWordChars(name2)
    ensures WordCountsOf([Regulation("A", TitleText(Some(7), Some(name1)), Some("2020-01-01")),
                          Regulation("A", TitleText(Some(9), Some(name2)), None)]) == [("A", 6)]
  {
    var regs := [Regulation("A", TitleText(Some(7), Some(name1)), Some("2020-01-01")),
                 Regulation("A", TitleText(Some(9), Some(name2)), None)];
    RecordTextWordCount(Some(7), name1);
    RecordTextWordCount(Some(9), name2);
    assert WordObservations(regs) == [("A", 3), ("A", 3)];
    TallySameKey(("A", 3), ("A", 3));
  }

  lemma ExampleHistogram(text1: string, text2: string, parse: string -> Option<DateKey>)
    requires parse("2020-01-01") == Some("2020-01-01")
    ensures HistogramOf([Regulation("A", text1, Some("2020-01-01")), Regulation("A", text2, None)], parse)
         == [("2020-01-01", 1), (UNKNOWN, 1)]
  {
    DatedThenUndated(Regulation("A", text1, Some("2020-01-01")), Regulation("A", text2, None), parse, "2020-01-01");
  }

  /** A dated record followed by an undated one: one change on that date, then one unknown. */
  lemma DatedThenUndated(r1: Row, r2: Row, parse: string -> Option<DateKey>, d: DateKey)
    requires DateBucket(r1, parse) == d && DateBucket(r2, parse) == UNKNOWN
    ensures HistogramOf([r1, r2], parse) == [(d, 1), (UNKNOWN, 1)]
  {
    assert DateObservations([r1, r2], parse) == [(d, 1), (UNKNOWN, 1)];
    DateKeyBeforeUnknown(d);
    StrLtIrreflexive(d);
    TallyDifferentKeys((d, 1), (UNKNOWN, 1));
    var tally := [(d, 1), (UNKNOWN, 1)];
    assert tally[1..] == [(UNKNOWN, 1)];
    assert SortByKey(tally[1..]) == [(UNKNOWN, 1)];
  }
}
