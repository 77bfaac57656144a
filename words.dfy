/**
 * Tokenising for the word-count aggregator: `re.findall(r'\w+', text)`
 * returns the maximal runs of word characters, left to right.
 */
module Words {

  /** `\w`, restricted to ASCII: letters, digits and the underscore. */
  predicate IsWordChar(c: char) {
    ('a' <= c <= 'z') || ('A' <= c <= 'Z') || ('0' <= c <= '9') || c == '_'
  }

  predicate AllWordChars(w: string) {
    forall i :: 0 <= i < |w| ==> IsWordChar(w[i])
  }

  /** Length of the run of word characters that `s` starts with. */
  function WordPrefixLen(s: string): (n: nat)
    ensures n <= |s|
    ensures AllWordChars(s[..n])
    ensures n < |s| ==> !IsWordChar(s[n])
  {
    if s == [] || !IsWordChar(s[0]) then 0
    else
      var m := WordPrefixLen(s[1..]);
      assert s[..m + 1] == [s[0]] + s[1..][..m];
      m + 1
  }

  /**
   * `re.findall(r'\w+', s)`: each match is the longest run starting at the
   * leftmost word character not yet consumed, so every match is a non-empty
   * run of word characters.
   */
  function FindAllWords(s: string): (ws: seq<string>)
    ensures forall i :: 0 <= i < |ws| ==> |ws[i]| > 0 && AllWordChars(ws[i])
    decreases |s|
  {
    if s == [] then []
    else if !IsWordChar(s[0]) then FindAllWords(s[1..])
    else
      var n := WordPrefixLen(s);
      [s[..n]] + FindAllWords(s[n..])
  }

  lemma {:induction false} WordPrefixLenOfRun(w: string, rest: string)
    requires AllWordChars(w)
    requires rest == [] || !IsWordChar(rest[0])
    ensures WordPrefixLen(w + rest) == |w|
  {
    if w != [] {
      assert (w + rest)[1..] == w[1..] + rest;
      WordPrefixLenOfRun(w[1..], rest);
    }
  }

  /** A maximal run at the front is the first match. */
  lemma FindAllWordsRun(w: string, rest: string)
    requires |w| > 0 && AllWordChars(w)
    requires rest == [] || !IsWordChar(rest[0])
    ensures FindAllWords(w + rest) == [w] + FindAllWords(rest)
  {
    WordPrefixLenOfRun(w, rest);
    assert (w + rest)[..|w|] == w;
    assert (w + rest)[|w|..] == rest;
  }

  /** A leading non-word character is skipped. */
  lemma FindAllWordsSkip(c: char, rest: string)
    requires !IsWordChar(c)
    ensures FindAllWords([c] + rest) == FindAllWords(rest)
  {
    assert ([c] + rest)[1..] == rest;
  }

  lemma {:induction false} WordPrefixLenAppend(a: string, b: string)
    requires WordPrefixLen(a) < |a|
    ensures WordPrefixLen(a + b) == WordPrefixLen(a)
  {
    if IsWordChar(a[0]) {
      assert (a + b)[1..] == a[1..] + b;
      WordPrefixLenAppend(a[1..], b);
    }
  }

  /** Text that ends outside a word splits the matches: no match straddles the boundary. */
  lemma {:induction false} FindAllWordsAppend(a: string, b: string)
    requires a == [] || !IsWordChar(a[|a| - 1])
    ensures FindAllWords(a + b) == FindAllWords(a) + FindAllWords(b)
    decreases |a|
  {
    if a == [] {
      assert a + b == b;
    } else if !IsWordChar(a[0]) {
      assert (a + b)[1..] == a[1..] + b;
      FindAllWordsAppend(a[1..], b);
    } else {
      var n := WordPrefixLen(a);
      WordPrefixLenAppend(a, b);
      assert (a + b)[..n] == a[..n];
      assert (a + b)[n..] == a[n..] + b;
      FindAllWordsAppend(a[n..], b);
    }
  }

  /** The number of words the aggregator adds for one text: `len(re.findall(r'\w+', text))`. */
  function WordCount(text: string): nat {
    |FindAllWords(text)|
  }

  /** The word characters of `s`, in order (a reference definition independent of the scan). */
  function WordCharsOf(s: string): string {
    if s == [] then "" else (if IsWordChar(s[0]) then [s[0]] else "") + WordCharsOf(s[1..])
  }

  function Concat(ws: seq<string>): string {
    if ws == [] then "" else ws[0] + Concat(ws[1..])
  }

  /** Number of positions where a run of word characters begins; `afterWord` says whether the character before `s` was one. */
  function RunStarts(s: string, afterWord: bool): nat {
    if s == [] then 0
    else (if IsWordChar(s[0]) && !afterWord then 1 else 0) + RunStarts(s[1..], IsWordChar(s[0]))
  }

  lemma {:induction false} WordCharsOfRun(s: string, k: nat)
    requires k <= |s| && AllWordChars(s[..k])
    ensures WordCharsOf(s) == s[..k] + WordCharsOf(s[k..])
  {
    if k > 0 {
      assert s[..k][0] == s[0];
      assert s[1..][..k - 1] == s[..k][1..];
      WordCharsOfRun(s[1..], k - 1);
      assert s[1..][k - 1..] == s[k..];
      assert s[..k] == [s[0]] + s[1..][..k - 1];
    }
  }

  /** The matches, put back together, are exactly the word characters of the text: nothing is lost or invented. */
  lemma {:induction false} FindAllWordsCovers(s: string)
    ensures Concat(FindAllWords(s)) == WordCharsOf(s)
    decreases |s|
  {
    if s != [] {
      if !IsWordChar(s[0]) {
        FindAllWordsCovers(s[1..]);
      } else {
        var n := WordPrefixLen(s);
        FindAllWordsCovers(s[n..]);
        WordCharsOfRun(s, n);
        assert ([s[..n]] + FindAllWords(s[n..]))[1..] == FindAllWords(s[n..]);
      }
    }
  }

  lemma {:induction false} RunStartsInsideRun(s: string, k: nat)
    requires 1 <= k <= WordPrefixLen(s)
    ensures RunStarts(s[k..], true) == RunStarts(s[WordPrefixLen(s)..], false)
    decreases WordPrefixLen(s) - k
  {
    var n := WordPrefixLen(s);
    if k < n {
      assert s[..n][k] == s[k];
      assert s[k..][1..] == s[k + 1..];
      RunStartsInsideRun(s, k + 1);
    } else if k < |s| {
      assert s[k..][1..] == s[k + 1..];
    }
  }

  /** The number of matches is the number of maximal runs of word characters. */
  lemma {:induction false} WordCountIsRunCount(s: string)
    ensures WordCount(s) == RunStarts(s, false)
    decreases |s|
  {
    if s != [] {
      if !IsWordChar(s[0]) {
        WordCountIsRunCount(s[1..]);
      } else {
        var n := WordPrefixLen(s);
        WordCountIsRunCount(s[n..]);
        RunStartsInsideRun(s, 1);
      }
    }
  }
}
