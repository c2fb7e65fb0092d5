/** What the word-timing grouper promises, proved about its reference definition
    ElevenLabs.WordTimings (which ElevenLabs.ExtractWordTimings is proved to return). */
module ElevenLabsProperties {
  import opened Wrappers
  import opened PyStr
  import opened ElevenLabs

  /** Positions `a..b` form a maximal run of non-separators of `c`. */
  predicate IsMaximalRun(c: string, a: nat, b: nat)
  {
    && a <= b < |c|
    && (forall m :: a <= m <= b ==> !IsSeparator(c[m]))
    && (a == 0 || IsSeparator(c[a - 1]))
    && (b == |c| - 1 || IsSeparator(c[b + 1]))
  }

  predicate NoSeparator(s: string)
  {
    forall m :: 0 <= m < |s| ==> !IsSeparator(s[m])
  }

  /** The position of a word's first character is where its run starts. */
  lemma {:induction false} RunStartOfRun(c: string, a: nat, b: nat)
    requires a <= b < |c|
    requires forall m :: a <= m < b ==> !IsSeparator(c[m])
    requires a == 0 || IsSeparator(c[a - 1])
    ensures RunStart(c, b) == a
    decreases b - a
  {
    if a < b {
      RunStartOfRun(c, a, b - 1);
    }
  }

  /** The properties every record emitted at a separator has, whatever the input: its
      text is a whole run of non-separators with content starting at `charStartIndex`, and
      `charEndIndex` is the position before the separator that closed it, which is the
      run's last position unless only separators follow the run. */
  ghost predicate SeparatorWordShape<T>(c: string, startTimes: seq<T>, endTimes: seq<T>, zero: T, w: WordTiming<T>)
  {
    && 0 < |w.text|
    && w.charStartIndex + |w.text| <= w.charEndIndex + 1 < |c|
    && IsMaximalRun(c, w.charStartIndex, w.charStartIndex + |w.text| - 1)
    && w.text == c[w.charStartIndex..w.charStartIndex + |w.text|]
    && HasContent(w.text)
    && NoSeparator(w.text)
    && IsSeparator(c[w.charEndIndex + 1])
    && (w.charEndIndex + 1 == w.charStartIndex + |w.text| || NextNonSeparator(c, w.charEndIndex + 1) == |c|)
    && w.start == StartTime(startTimes, w.charStartIndex, zero)
    && w.charEndIndex < |endTimes|
    && w.end == endTimes[w.charEndIndex]
  }

  lemma SeparatorWordHasShape<T>(c: string, startTimes: seq<T>, endTimes: seq<T>, zero: T, q: nat)
    requires EmitsAt(c, q) && q <= |endTimes|
    ensures SeparatorWordShape(c, startTimes, endTimes, zero, SeparatorWord(c, startTimes, endTimes, zero, q))
    ensures SeparatorWord(c, startTimes, endTimes, zero, q).charEndIndex == q - 1
  {
    var k := PrevNonSeparator(c, q);
    var a := RunStart(c, k);
    var w := SeparatorWord(c, startTimes, endTimes, zero, q);
    PrevNonSeparatorSkips(c, q);
    RunStartSkips(c, k);
    assert w.text == c[a..k + 1];
    assert IsSeparator(c[k + 1]);
    assert forall m :: 0 <= m < |w.text| ==> w.text[m] == c[a + m];
  }

  lemma {:induction false} SeparatorWordsShape<T>(c: string, startTimes: seq<T>, endTimes: seq<T>, zero: T, p: nat)
    requires p <= |c|
    requires SeparatorWordsBefore(c, startTimes, endTimes, zero, p).Ok?
    ensures var ws := SeparatorWordsBefore(c, startTimes, endTimes, zero, p).value;
      && (forall j :: 0 <= j < |ws| ==> SeparatorWordShape(c, startTimes, endTimes, zero, ws[j]))
      && (forall j :: 0 <= j < |ws| ==> ws[j].charEndIndex + 1 < p)
      && (forall j, l :: 0 <= j < l < |ws| ==> ws[j].charEndIndex < ws[l].charEndIndex)
  {
    if p > 0 {
      SeparatorWordsShape(c, startTimes, endTimes, zero, p - 1);
      if EmitsAt(c, p - 1) {
        SeparatorWordHasShape(c, startTimes, endTimes, zero, p - 1);
      }
    }
  }

  /** Every separator position that emits a word before `p` contributes its record. */
  lemma {:induction false} EmittedWordIsListed<T>(c: string, startTimes: seq<T>, endTimes: seq<T>, zero: T, p: nat, q: nat)
    requires q < p <= |c|
    requires SeparatorWordsBefore(c, startTimes, endTimes, zero, p).Ok?
    requires EmitsAt(c, q)
    ensures q <= |endTimes|
    ensures exists j :: 0 <= j < |SeparatorWordsBefore(c, startTimes, endTimes, zero, p).value|
                     && SeparatorWordsBefore(c, startTimes, endTimes, zero, p).value[j] == SeparatorWord(c, startTimes, endTimes, zero, q)
  {
    if q < p - 1 {
      EmittedWordIsListed(c, startTimes, endTimes, zero, p - 1, q);
      var ws := SeparatorWordsBefore(c, startTimes, endTimes, zero, p - 1).value;
      var j :| 0 <= j < |ws| && ws[j] == SeparatorWord(c, startTimes, endTimes, zero, q);
      var ws' := SeparatorWordsBefore(c, startTimes, endTimes, zero, p).value;
      assert ws'[j] == ws[j];
    } else {
      assert SeparatorWordsBefore(c, startTimes, endTimes, zero, p - 1).Ok?;
      var ws' := SeparatorWordsBefore(c, startTimes, endTimes, zero, p).value;
      assert ws'[|ws'| - 1] == SeparatorWord(c, startTimes, endTimes, zero, q);
    }
  }

  /** The scan up to `p` fails exactly when some separator before `p` must close a word
      whose preceding position has no end time. */
  lemma {:induction false} SeparatorWordsErrIff<T>(c: string, startTimes: seq<T>, endTimes: seq<T>, zero: T, p: nat)
    requires p <= |c|
    ensures SeparatorWordsBefore(c, startTimes, endTimes, zero, p).Err?
        <==> exists q :: 0 <= q < p && EmitsAt(c, q) && q > |endTimes|
    ensures SeparatorWordsBefore(c, startTimes, endTimes, zero, p).Err? ==>
              SeparatorWordsBefore(c, startTimes, endTimes, zero, p).error == IndexError
  {
    if p > 0 {
      SeparatorWordsErrIff(c, startTimes, endTimes, zero, p - 1);
    }
  }

  /** No IndexError is raised before `p` when every position before `p - 1` has an end time. */
  lemma {:induction false} SeparatorWordsCovered<T>(c: string, startTimes: seq<T>, endTimes: seq<T>, zero: T, p: nat)
    requires p <= |c| && p <= |endTimes| + 1
    ensures SeparatorWordsBefore(c, startTimes, endTimes, zero, p).Ok?
  {
    if p > 0 {
      SeparatorWordsCovered(c, startTimes, endTimes, zero, p - 1);
    }
  }

  /** A record whose text has content, holds no separator, and is the characters from
      its start index on; its start index does not exceed its end index. */
  ghost predicate IsWordOf<T>(c: string, w: WordTiming<T>)
  {
    && NoSeparator(w.text)
    && HasContent(w.text)
    && w.charStartIndex <= w.charEndIndex
    && w.charStartIndex + |w.text| <= |c|
    && w.text == c[w.charStartIndex..w.charStartIndex + |w.text|]
  }

  lemma FinalWordsAreWords<T>(c: string, startTimes: seq<T>, endTimes: seq<T>, zero: T)
    requires 0 < |endTimes|
    ensures var fw := FinalWords(c, startTimes, endTimes, zero);
      forall j :: 0 <= j < |fw| ==> IsWordOf(c, fw[j])
  {
    var fw := FinalWords(c, startTimes, endTimes, zero);
    var k := PrevNonSeparator(c, |c|);
    if 0 <= k && HasContent(RunText(c, k)) {
      var a := RunStart(c, k);
      RunStartSkips(c, k);
      assert fw[0].text == c[a..k + 1];
      assert forall m :: 0 <= m < |fw[0].text| ==> fw[0].text[m] == c[a + m];
    }
  }

  /** Whatever the input, no record's text holds a separator, no record's text strips to
      the empty string, and every record's text is the characters from its start index on. */
  lemma WordTextsAreWords<T>(c: string, startTimes: seq<T>, endTimes: seq<T>, zero: T)
    requires WordTimings(c, startTimes, endTimes, zero).Ok?
    ensures var ws := WordTimings(c, startTimes, endTimes, zero).value;
      forall j :: 0 <= j < |ws| ==> IsWordOf(c, ws[j]) && Strip(ws[j].text) != ""
  {
    var ws := WordTimings(c, startTimes, endTimes, zero).value;
    if 0 < |c| && 0 < |startTimes| && 0 < |endTimes| {
      var sw := SeparatorWordsBefore(c, startTimes, endTimes, zero, |c|).value;
      var fw := FinalWords(c, startTimes, endTimes, zero);
      assert ws == sw + fw;
      SeparatorWordsShape(c, startTimes, endTimes, zero, |c|);
      FinalWordsAreWords(c, startTimes, endTimes, zero);
      forall j | 0 <= j < |ws|
        ensures IsWordOf(c, ws[j]) && Strip(ws[j].text) != ""
      {
        if j < |sw| {
          assert ws[j] == sw[j];
        } else {
          assert ws[j] == fw[j - |sw|];
        }
        StripEmptyIffBlank(ws[j].text);
      }
    }
  }

  /** The grouper fails exactly when some separator must close a word whose preceding
      position has no end time; it then raises IndexError. In particular it cannot fail
      when there is an end time for every character but the last. */
  lemma WordTimingsErrIff<T>(c: string, startTimes: seq<T>, endTimes: seq<T>, zero: T)
    requires 0 < |c| && 0 < |startTimes| && 0 < |endTimes|
    ensures WordTimings(c, startTimes, endTimes, zero).Err?
        <==> exists q :: 0 <= q < |c| && EmitsAt(c, q) && q > |endTimes|
    ensures WordTimings(c, startTimes, endTimes, zero).Err? ==>
              WordTimings(c, startTimes, endTimes, zero).error == IndexError
    ensures |endTimes| + 1 >= |c| ==> WordTimings(c, startTimes, endTimes, zero).Ok?
  {
    SeparatorWordsErrIff(c, startTimes, endTimes, zero, |c|);
  }

  /** A record that spells out the maximal run of non-separators it covers, with content,
      and starts at the start time of its first character. */
  ghost predicate RunWord<T>(c: string, startTimes: seq<T>, zero: T, w: WordTiming<T>)
  {
    && IsMaximalRun(c, w.charStartIndex, w.charEndIndex)
    && w.text == c[w.charStartIndex..w.charEndIndex + 1]
    && HasContent(w.text)
    && w.start == StartTime(startTimes, w.charStartIndex, zero)
  }

  /** When the characters end in a non-separator, no position is followed only by separators. */
  lemma NonSeparatorFollows(c: string, x: nat)
    requires x < |c| && !IsSeparator(c[|c| - 1])
    ensures NextNonSeparator(c, x) < |c|
  {
    NextNonSeparatorSkips(c, x);
    assert !IsSeparator(c[|c| - 1]);
  }

  /** The output for non-empty inputs when no IndexError is raised. */
  lemma WordTimingsUnfold<T>(d: string, startTimes: seq<T>, endTimes: seq<T>, zero: T, sw: seq<WordTiming<T>>)
    requires 0 < |d| && 0 < |startTimes| && 0 < |endTimes|
    requires SeparatorWordsBefore(d, startTimes, endTimes, zero, |d|) == Ok(sw)
    ensures WordTimings(d, startTimes, endTimes, zero) == Ok(sw + FinalWords(d, startTimes, endTimes, zero))
  {
  }

  /** The separator-emitted records of characters that end in a non-separator are
      maximal runs, in order, each ending at the end time of its last character. */
  lemma SeparatorWordsClean<T>(c: string, startTimes: seq<T>, endTimes: seq<T>, zero: T)
    requires 0 < |c| && !IsSeparator(c[|c| - 1])
    requires SeparatorWordsBefore(c, startTimes, endTimes, zero, |c|).Ok?
    ensures var sw := SeparatorWordsBefore(c, startTimes, endTimes, zero, |c|).value;
      && (forall j :: 0 <= j < |sw| ==> RunWord(c, startTimes, zero, sw[j]))
      && (forall j :: 0 <= j < |sw| ==> sw[j].charEndIndex + 1 < |c| && IsSeparator(c[sw[j].charEndIndex + 1]))
      && (forall j :: 0 <= j < |sw| ==> sw[j].charEndIndex < |endTimes| && sw[j].end == endTimes[sw[j].charEndIndex])
      && (forall j, l :: 0 <= j < l < |sw| ==> sw[j].charEndIndex < sw[l].charStartIndex)
  {
    SeparatorWordsShape(c, startTimes, endTimes, zero, |c|);
    SeparatorWordsAreRuns(c, startTimes, endTimes, zero);
    SeparatorWordsDisjoint(c, startTimes, endTimes, zero);
  }

  lemma SeparatorWordsAreRuns<T>(c: string, startTimes: seq<T>, endTimes: seq<T>, zero: T)
    requires 0 < |c| && !IsSeparator(c[|c| - 1])
    requires SeparatorWordsBefore(c, startTimes, endTimes, zero, |c|).Ok?
    ensures var sw := SeparatorWordsBefore(c, startTimes, endTimes, zero, |c|).value;
      forall j :: 0 <= j < |sw| ==> RunWord(c, startTimes, zero, sw[j])
  {
    var sw := SeparatorWordsBefore(c, startTimes, endTimes, zero, |c|).value;
    SeparatorWordsShape(c, startTimes, endTimes, zero, |c|);
    forall j | 0 <= j < |sw|
      ensures RunWord(c, startTimes, zero, sw[j])
    {
      NonSeparatorFollows(c, sw[j].charEndIndex + 1);
    }
  }

  lemma SeparatorWordsDisjoint<T>(c: string, startTimes: seq<T>, endTimes: seq<T>, zero: T)
    requires 0 < |c| && !IsSeparator(c[|c| - 1])
    requires SeparatorWordsBefore(c, startTimes, endTimes, zero, |c|).Ok?
    ensures var sw := SeparatorWordsBefore(c, startTimes, endTimes, zero, |c|).value;
      forall j, l :: 0 <= j < l < |sw| ==> sw[j].charEndIndex < sw[l].charStartIndex
  {
    var sw := SeparatorWordsBefore(c, startTimes, endTimes, zero, |c|).value;
    SeparatorWordsShape(c, startTimes, endTimes, zero, |c|);
    SeparatorWordsAreRuns(c, startTimes, endTimes, zero);
    forall j, l | 0 <= j < l < |sw|
      ensures sw[j].charEndIndex < sw[l].charStartIndex
    {
      assert IsSeparator(c[sw[j].charEndIndex + 1]);
    }
  }

  /** For characters that end in a non-separator, the record appended after the loop
      is the last run with its last end time, present when that run has content. */
  lemma FinalWordsClean<T>(c: string, startTimes: seq<T>, endTimes: seq<T>, zero: T)
    requires 0 < |c| && 0 < |endTimes| && !IsSeparator(c[|c| - 1])
    ensures var fw := FinalWords(c, startTimes, endTimes, zero);
      && |fw| == (if HasContent(RunText(c, |c| - 1)) then 1 else 0)
      && (|fw| == 1 ==>
            && RunWord(c, startTimes, zero, fw[0])
            && fw[0].charEndIndex == |c| - 1
            && fw[0].end == endTimes[|endTimes| - 1])
  {
    var k := |c| - 1;
    assert PrevNonSeparator(c, |c|) == k;
    RunStartSkips(c, k);
  }

  /** When the characters do not end in a separator, every record is a maximal run of
      non-separators with content, the records are in order with disjoint index ranges,
      each record but one ending at the last character ends at the end time of its last
      character, and the record ending at the last character is the last one, ends at the
      last end time, and is present exactly when that run has content. */
  lemma WordTimingsClean<T>(c: string, startTimes: seq<T>, endTimes: seq<T>, zero: T)
    requires 0 < |c| && 0 < |startTimes| && 0 < |endTimes|
    requires !IsSeparator(c[|c| - 1])
    requires WordTimings(c, startTimes, endTimes, zero).Ok?
    ensures var ws := WordTimings(c, startTimes, endTimes, zero).value;
      && (forall j :: 0 <= j < |ws| ==> RunWord(c, startTimes, zero, ws[j]))
      && (forall j, l :: 0 <= j < l < |ws| ==> ws[j].charEndIndex < ws[l].charStartIndex)
      && (forall j :: 0 <= j < |ws| && ws[j].charEndIndex < |c| - 1 ==>
            ws[j].charEndIndex < |endTimes| && ws[j].end == endTimes[ws[j].charEndIndex])
      && (forall j :: 0 <= j < |ws| && ws[j].charEndIndex == |c| - 1 ==>
            j == |ws| - 1 && ws[j].end == endTimes[|endTimes| - 1])
      && (HasContent(RunText(c, |c| - 1)) <==> (|ws| > 0 && ws[|ws| - 1].charEndIndex == |c| - 1))
  {
    var sw := SeparatorWordsBefore(c, startTimes, endTimes, zero, |c|).value;
    var fw := FinalWords(c, startTimes, endTimes, zero);
    var ws := WordTimings(c, startTimes, endTimes, zero).value;
    assert ws == sw + fw;
    SeparatorWordsClean(c, startTimes, endTimes, zero);
    FinalWordsClean(c, startTimes, endTimes, zero);
    if |fw| == 1 {
      forall j | 0 <= j < |sw|
        ensures sw[j].charEndIndex < fw[0].charStartIndex
      {
        assert IsSeparator(c[sw[j].charEndIndex + 1]);
      }
    }
  }

  /** A maximal run with content that a separator follows is emitted at that separator. */
  lemma SeparatorWordsComplete<T>(c: string, startTimes: seq<T>, endTimes: seq<T>, zero: T, a: nat, b: nat)
    requires 0 < |c| && !IsSeparator(c[|c| - 1])
    requires SeparatorWordsBefore(c, startTimes, endTimes, zero, |c|).Ok?
    requires IsMaximalRun(c, a, b) && b < |c| - 1 && HasContent(c[a..b + 1])
    ensures exists j :: 0 <= j < |SeparatorWordsBefore(c, startTimes, endTimes, zero, |c|).value|
                     && SeparatorWordsBefore(c, startTimes, endTimes, zero, |c|).value[j].charStartIndex == a
                     && SeparatorWordsBefore(c, startTimes, endTimes, zero, |c|).value[j].charEndIndex == b
  {
    RunStartOfRun(c, a, b);
    assert PrevNonSeparator(c, b + 1) == b;
    NonSeparatorFollows(c, b + 1);
    assert EmitsAt(c, b + 1);
    EmittedWordIsListed(c, startTimes, endTimes, zero, |c|, b + 1);
  }

  /** When the characters do not end in a separator, every maximal run of non-separators
      with content is the text of some record. */
  lemma WordTimingsCleanComplete<T>(c: string, startTimes: seq<T>, endTimes: seq<T>, zero: T, a: nat, b: nat)
    requires 0 < |c| && 0 < |startTimes| && 0 < |endTimes|
    requires !IsSeparator(c[|c| - 1])
    requires WordTimings(c, startTimes, endTimes, zero).Ok?
    requires IsMaximalRun(c, a, b) && HasContent(c[a..b + 1])
    ensures exists j :: 0 <= j < |WordTimings(c, startTimes, endTimes, zero).value|
                     && WordTimings(c, startTimes, endTimes, zero).value[j].charStartIndex == a
                     && WordTimings(c, startTimes, endTimes, zero).value[j].charEndIndex == b
  {
    var sw := SeparatorWordsBefore(c, startTimes, endTimes, zero, |c|).value;
    var fw := FinalWords(c, startTimes, endTimes, zero);
    WordTimingsUnfold(c, startTimes, endTimes, zero, sw);
    var ws := sw + fw;
    if b < |c| - 1 {
      SeparatorWordsComplete(c, startTimes, endTimes, zero, a, b);
      var j :| 0 <= j < |sw| && sw[j].charStartIndex == a && sw[j].charEndIndex == b;
      assert ws[j] == sw[j];
    } else {
      RunStartOfRun(c, a, b);
      FinalWordsClean(c, startTimes, endTimes, zero);
      assert RunText(c, |c| - 1) == c[a..b + 1];
      assert ws[|sw|] == fw[0];
    }
  }

  // ---------------------------------------------------------------------------
  // Trailing separators
  // ---------------------------------------------------------------------------

  lemma {:induction false} PrevNonSeparatorOfPrefix(c: string, d: string, p: nat)
    requires p <= |c|
    ensures PrevNonSeparator(c + d, p) == PrevNonSeparator(c, p)
  {
    if p > 0 {
      assert (c + d)[p - 1] == c[p - 1];
      PrevNonSeparatorOfPrefix(c, d, p - 1);
    }
  }

  lemma {:induction false} RunStartOfPrefix(c: string, d: string, k: nat)
    requires k < |c|
    ensures RunStart(c + d, k) == RunStart(c, k)
  {
    if k > 0 {
      assert (c + d)[k - 1] == c[k - 1];
      RunStartOfPrefix(c, d, k - 1);
    }
  }

  lemma {:induction false} NextNonSeparatorOfPrefix(c: string, d: string, i: nat)
    requires i < |c| && !IsSeparator(c[|c| - 1])
    ensures NextNonSeparator(c + d, i) == NextNonSeparator(c, i)
    decreases |c| - i
  {
    assert (c + d)[i] == c[i];
    if IsSeparator(c[i]) {
      NextNonSeparatorOfPrefix(c, d, i + 1);
    }
  }

  /** Appending characters after a non-separator does not change whether a separator
      before it emits a word, nor which word. */
  lemma SeparatorWordOfPrefix<T>(c: string, d: string, startTimes: seq<T>, endTimes: seq<T>, zero: T, q: nat)
    requires 0 < |c| && !IsSeparator(c[|c| - 1]) && q < |c|
    ensures EmitsAt(c + d, q) == EmitsAt(c, q)
    ensures EmitsAt(c, q) && q <= |endTimes| ==>
              SeparatorWord(c + d, startTimes, endTimes, zero, q) == SeparatorWord(c, startTimes, endTimes, zero, q)
  {
    assert (c + d)[q] == c[q];
    PrevNonSeparatorOfPrefix(c, d, q);
    NextNonSeparatorOfPrefix(c, d, q);
    NonSeparatorFollows(c, q);
    var k := PrevNonSeparator(c, q);
    if k >= 0 {
      RunStartOfPrefix(c, d, k);
      assert (c + d)[RunStart(c, k)..k + 1] == c[RunStart(c, k)..k + 1];
    }
  }

  /** Two character sequences whose separators so far emitted the same words, and
      whose next position emits the same word or none, agree one position further. */
  lemma SeparatorWordsAgree<T>(c: string, d: string, startTimes: seq<T>, endTimes: seq<T>, zero: T, p: nat)
    requires 0 < p <= |c| && p <= |d|
    requires SeparatorWordsBefore(c, startTimes, endTimes, zero, p - 1) == SeparatorWordsBefore(d, startTimes, endTimes, zero, p - 1)
    requires EmitsAt(c, p - 1) == EmitsAt(d, p - 1)
    requires EmitsAt(c, p - 1) && p - 1 <= |endTimes| ==>
               SeparatorWord(c, startTimes, endTimes, zero, p - 1) == SeparatorWord(d, startTimes, endTimes, zero, p - 1)
    ensures SeparatorWordsBefore(c, startTimes, endTimes, zero, p) == SeparatorWordsBefore(d, startTimes, endTimes, zero, p)
  {
  }

  /** Appending characters after a non-separator does not change the words the
      separators before it emit. */
  lemma {:induction false} SeparatorWordsOfPrefix<T>(c: string, d: string, startTimes: seq<T>, endTimes: seq<T>, zero: T, p: nat)
    requires 0 < |c| && !IsSeparator(c[|c| - 1]) && p <= |c|
    ensures SeparatorWordsBefore(c + d, startTimes, endTimes, zero, p) == SeparatorWordsBefore(c, startTimes, endTimes, zero, p)
  {
    if p > 0 {
      SeparatorWordsOfPrefix(c, d, startTimes, endTimes, zero, p - 1);
      SeparatorWordOfPrefix(c, d, startTimes, endTimes, zero, p - 1);
      SeparatorWordsAgree(c + d, c, startTimes, endTimes, zero, p);
    }
  }

  predicate AllSeparators(s: string)
  {
    forall m :: 0 <= m < |s| ==> IsSeparator(s[m])
  }

  /** Position `n - 1` of `d` is its last non-separator. */
  predicate OnlySeparatorsFrom(d: string, n: nat)
  {
    && 0 < n <= |d|
    && !IsSeparator(d[n - 1])
    && forall m :: n <= m < |d| ==> IsSeparator(d[m])
  }

  lemma {:induction false} PrevNonSeparatorInTrailing(d: string, n: nat, q: nat)
    requires OnlySeparatorsFrom(d, n) && n <= q <= |d|
    ensures PrevNonSeparator(d, q) == n - 1
  {
    if q > n {
      PrevNonSeparatorInTrailing(d, n, q - 1);
    }
  }

  lemma {:induction false} NextNonSeparatorInTrailing(d: string, n: nat, q: nat)
    requires OnlySeparatorsFrom(d, n) && n <= q <= |d|
    ensures NextNonSeparator(d, q) == |d|
    decreases |d| - q
  {
    if q < |d| {
      NextNonSeparatorInTrailing(d, n, q + 1);
    }
  }

  /** The record the grouper holds once the run ending at `n - 1` has been scanned,
      closed at that position with the last end time. */
  function HeldWord<T>(d: string, startTimes: seq<T>, endTimes: seq<T>, zero: T, n: nat): (r: WordTiming<T>)
    requires 0 < n <= |d| && 0 < |endTimes|
  {
    var a := RunStart(d, n - 1);
    WordTiming(RunText(d, n - 1), StartTime(startTimes, a, zero), endTimes[|endTimes| - 1], a, n - 1)
  }

  /** `w` closed again at each of the positions `from`, ..., `from + m - 1`. */
  function Repeats<T>(w: WordTiming<T>, endTimes: seq<T>, from: nat, m: nat): (r: seq<WordTiming<T>>)
    requires from + m <= |endTimes|
    ensures |r| == m
  {
    if m == 0 then [] else Repeats(w, endTimes, from, m - 1) + [w.(end := endTimes[from + m - 1], charEndIndex := from + m - 1)]
  }

  lemma {:induction false} RepeatsAt<T>(w: WordTiming<T>, endTimes: seq<T>, from: nat, m: nat)
    requires from + m <= |endTimes|
    ensures forall j :: 0 <= j < m ==> Repeats(w, endTimes, from, m)[j] == w.(end := endTimes[from + j], charEndIndex := from + j)
  {
    if m > 0 {
      RepeatsAt(w, endTimes, from, m - 1);
    }
  }

  /** A separator after the last non-separator emits the held word exactly when the
      last run has content, closed at the position before the separator. */
  lemma EmitsInTrailing<T>(d: string, startTimes: seq<T>, endTimes: seq<T>, zero: T, n: nat, q: nat)
    requires OnlySeparatorsFrom(d, n) && n <= q < |d| && q <= |endTimes|
    ensures EmitsAt(d, q) == HasContent(RunText(d, n - 1))
    ensures EmitsAt(d, q) ==>
              SeparatorWord(d, startTimes, endTimes, zero, q)
                == HeldWord(d, startTimes, endTimes, zero, n).(end := endTimes[q - 1], charEndIndex := q - 1)
  {
    PrevNonSeparatorInTrailing(d, n, q);
    NextNonSeparatorInTrailing(d, n, q);
  }

  /** The records `sw` followed, when `held`, by `w` closed at each position from
      `n - 1` to `p - 2`. */
  function WithRepeats<T>(sw: seq<WordTiming<T>>, w: WordTiming<T>, held: bool, endTimes: seq<T>, n: nat, p: nat): (r: seq<WordTiming<T>>)
    requires 0 < n <= p <= |endTimes| + 1
  {
    sw + if held then Repeats(w, endTimes, n - 1, p - n) else []
  }

  /** One step of the scan, for any characters: the separator at `p - 1` either emits
      its word or not. */
  lemma SeparatorWordsStep<T>(d: string, startTimes: seq<T>, endTimes: seq<T>, zero: T, p: nat, ws: seq<WordTiming<T>>)
    requires 0 < p <= |d| && p - 1 <= |endTimes|
    requires SeparatorWordsBefore(d, startTimes, endTimes, zero, p - 1) == Ok(ws)
    ensures SeparatorWordsBefore(d, startTimes, endTimes, zero, p)
         == Ok(if EmitsAt(d, p - 1) then ws + [SeparatorWord(d, startTimes, endTimes, zero, p - 1)] else ws)
  {
  }

  /** A separator that emits `w` closed before it, when `held`, extends the repeats. */
  lemma TrailingStep<T>(d: string, startTimes: seq<T>, endTimes: seq<T>, zero: T, n: nat, p: nat,
                        sw: seq<WordTiming<T>>, w: WordTiming<T>, held: bool)
    requires 0 < n < p <= |d| && p <= |endTimes| + 1
    requires SeparatorWordsBefore(d, startTimes, endTimes, zero, p - 1) == Ok(WithRepeats(sw, w, held, endTimes, n, p - 1))
    requires EmitsAt(d, p - 1) == held
    requires held ==> SeparatorWord(d, startTimes, endTimes, zero, p - 1) == w.(end := endTimes[p - 2], charEndIndex := p - 2)
    ensures SeparatorWordsBefore(d, startTimes, endTimes, zero, p) == Ok(WithRepeats(sw, w, held, endTimes, n, p))
  {
    SeparatorWordsStep(d, startTimes, endTimes, zero, p, WithRepeats(sw, w, held, endTimes, n, p - 1));
    if held {
      assert WithRepeats(sw, w, held, endTimes, n, p - 1) + [w.(end := endTimes[p - 2], charEndIndex := p - 2)]
          == WithRepeats(sw, w, held, endTimes, n, p);
    } else {
      assert WithRepeats(sw, w, held, endTimes, n, p - 1) == WithRepeats(sw, w, held, endTimes, n, p);
    }
  }

  /** Each separator after the last non-separator emits the held word again when the
      last run has content. */
  lemma {:induction false} SeparatorWordsInTrailing<T>(d: string, startTimes: seq<T>, endTimes: seq<T>, zero: T, n: nat, p: nat,
                                                      sw: seq<WordTiming<T>>)
    requires OnlySeparatorsFrom(d, n) && n <= p <= |d| && n <= |endTimes| && |d| <= |endTimes| + 1
    requires SeparatorWordsBefore(d, startTimes, endTimes, zero, n) == Ok(sw)
    ensures SeparatorWordsBefore(d, startTimes, endTimes, zero, p)
         == Ok(WithRepeats(sw, HeldWord(d, startTimes, endTimes, zero, n), HasContent(RunText(d, n - 1)), endTimes, n, p))
  {
    var w := HeldWord(d, startTimes, endTimes, zero, n);
    var held := HasContent(RunText(d, n - 1));
    if p == n {
      assert WithRepeats(sw, w, held, endTimes, n, p) == sw;
    } else {
      SeparatorWordsInTrailing(d, startTimes, endTimes, zero, n, p - 1, sw);
      EmitsInTrailing(d, startTimes, endTimes, zero, n, p - 1);
      TrailingStep(d, startTimes, endTimes, zero, n, p, sw, w, held);
    }
  }

  /** For characters ending in a non-separator, the word appended after the loop is the
      held word, when it has content. */
  lemma FinalWordsOfRun<T>(c: string, startTimes: seq<T>, endTimes: seq<T>, zero: T)
    requires 0 < |c| && !IsSeparator(c[|c| - 1]) && 0 < |endTimes|
    ensures FinalWords(c, startTimes, endTimes, zero)
         == if HasContent(RunText(c, |c| - 1)) then [HeldWord(c, startTimes, endTimes, zero, |c|)] else []
  {
    assert PrevNonSeparator(c, |c|) == |c| - 1;
  }

  /** When the last non-separator is at `k`, before the last position, the word
      appended after the loop is the run ending at `k`, closed one before the end. */
  lemma FinalWordsBeforeEnd<T>(d: string, startTimes: seq<T>, endTimes: seq<T>, zero: T, k: nat)
    requires k + 1 < |d| && PrevNonSeparator(d, |d|) == k && 0 < |endTimes|
    ensures FinalWords(d, startTimes, endTimes, zero)
         == if HasContent(RunText(d, k)) then [WordTiming(RunText(d, k), StartTime(startTimes, RunStart(d, k), zero),
                                                          endTimes[|endTimes| - 1], RunStart(d, k), |d| - 2)]
            else []
  {
  }

  /** After separators that follow the last non-separator, the word appended after the
      loop is the held word, its end index left at the position before the last separator. */
  lemma FinalWordsInTrailing<T>(d: string, startTimes: seq<T>, endTimes: seq<T>, zero: T, n: nat)
    requires OnlySeparatorsFrom(d, n) && n < |d| && 0 < |endTimes|
    ensures FinalWords(d, startTimes, endTimes, zero)
         == if HasContent(RunText(d, n - 1)) then [HeldWord(d, startTimes, endTimes, zero, n).(charEndIndex := |d| - 2)] else []
  {
    PrevNonSeparatorInTrailing(d, n, |d|);
    FinalWordsBeforeEnd(d, startTimes, endTimes, zero, n - 1);
  }

  /** Separators appended to characters that end in a non-separator follow their last
      non-separator, and leave the run before them alone. */
  lemma TrailingOfConcat(c: string, seps: string)
    requires 0 < |c| && !IsSeparator(c[|c| - 1]) && AllSeparators(seps)
    ensures OnlySeparatorsFrom(c + seps, |c|)
    ensures RunStart(c + seps, |c| - 1) == RunStart(c, |c| - 1)
    ensures RunText(c + seps, |c| - 1) == RunText(c, |c| - 1)
  {
    var d := c + seps;
    assert d[|c| - 1] == c[|c| - 1];
    forall m | |c| <= m < |d|
      ensures IsSeparator(d[m])
    {
      assert d[m] == seps[m - |c|];
    }
    RunStartOfPrefix(c, seps, |c| - 1);
    var a := RunStart(c, |c| - 1);
    assert d[a..|c|] == c[a..|c|];
  }

  /** The held word is the same with or without the appended separators. */
  lemma HeldWordOfConcat<T>(c: string, seps: string, startTimes: seq<T>, endTimes: seq<T>, zero: T)
    requires 0 < |c| && !IsSeparator(c[|c| - 1]) && AllSeparators(seps) && 0 < |endTimes|
    ensures HeldWord(c + seps, startTimes, endTimes, zero, |c|) == HeldWord(c, startTimes, endTimes, zero, |c|)
  {
    TrailingOfConcat(c, seps);
  }

  /** The shape of the two outputs, as sequences: `sw` followed by the held word `h`,
      and `sw` followed by `h` closed at positions `n - 1`..`n + k - 2` and a last copy. */
  lemma RepeatedTail<T>(sw: seq<WordTiming<T>>, h: WordTiming<T>, endTimes: seq<T>, n: nat, k: nat,
                        ws1: seq<WordTiming<T>>, ws2: seq<WordTiming<T>>)
    requires 0 < n && 0 < k && n - 1 + k <= |endTimes|
    requires ws1 == sw + [h]
    requires ws2 == (sw + Repeats(h, endTimes, n - 1, k)) + [h.(charEndIndex := n + k - 2)]
    ensures 0 < |ws1| && ws1[|ws1| - 1] == h
    ensures |ws2| == |ws1| + k
    ensures ws2[..|ws1| - 1] == ws1[..|ws1| - 1]
    ensures forall i :: |ws1| - 1 <= i < |ws2| - 1 ==>
              ws2[i] == h.(end := endTimes[i - |ws1| + n], charEndIndex := i - |ws1| + n)
    ensures ws2[|ws2| - 1] == h.(charEndIndex := n + k - 2)
  {
    assert ws2[..|ws1| - 1] == sw;
    assert ws1[..|ws1| - 1] == sw;
    RepeatsAt(h, endTimes, n - 1, k);
    forall i | |ws1| - 1 <= i < |ws2| - 1
      ensures ws2[i] == h.(end := endTimes[i - |ws1| + n], charEndIndex := i - |ws1| + n)
    {
      assert ws2[i] == Repeats(h, endTimes, n - 1, k)[i - |sw|];
    }
  }

  /** Both outputs, in terms of the words of `c` and the final words. */
  lemma WordTimingsWithTrailing<T>(c: string, seps: string, startTimes: seq<T>, endTimes: seq<T>, zero: T)
    requires 0 < |c| && !IsSeparator(c[|c| - 1]) && 0 < |seps| && AllSeparators(seps)
    requires 0 < |startTimes| && |c| + |seps| <= |endTimes| + 1
    ensures SeparatorWordsBefore(c, startTimes, endTimes, zero, |c|).Ok?
    ensures WordTimings(c, startTimes, endTimes, zero)
         == Ok(SeparatorWordsBefore(c, startTimes, endTimes, zero, |c|).value + FinalWords(c, startTimes, endTimes, zero))
    ensures WordTimings(c + seps, startTimes, endTimes, zero)
         == Ok(WithRepeats(SeparatorWordsBefore(c, startTimes, endTimes, zero, |c|).value, HeldWord(c, startTimes, endTimes, zero, |c|),
                           HasContent(RunText(c, |c| - 1)), endTimes, |c|, |c| + |seps|)
               + FinalWords(c + seps, startTimes, endTimes, zero))
  {
    var d := c + seps;
    assert |d| == |c| + |seps|;
    SeparatorWordsCovered(c, startTimes, endTimes, zero, |c|);
    var sw := SeparatorWordsBefore(c, startTimes, endTimes, zero, |c|).value;
    TrailingOfConcat(c, seps);
    HeldWordOfConcat(c, seps, startTimes, endTimes, zero);
    SeparatorWordsOfPrefix(c, seps, startTimes, endTimes, zero, |c|);
    SeparatorWordsInTrailing(d, startTimes, endTimes, zero, |c|, |d|, sw);
    WordTimingsUnfold(c, startTimes, endTimes, zero, sw);
    WordTimingsUnfold(d, startTimes, endTimes, zero,
                      WithRepeats(sw, HeldWord(c, startTimes, endTimes, zero, |c|), HasContent(RunText(c, |c| - 1)), endTimes, |c|, |d|));
  }

  /** The word appended after the loop once separators are appended, in terms of `c`. */
  lemma FinalWordsOfConcat<T>(c: string, seps: string, startTimes: seq<T>, endTimes: seq<T>, zero: T)
    requires 0 < |c| && !IsSeparator(c[|c| - 1]) && 0 < |seps| && AllSeparators(seps) && 0 < |endTimes|
    ensures FinalWords(c + seps, startTimes, endTimes, zero)
         == if HasContent(RunText(c, |c| - 1)) then [HeldWord(c, startTimes, endTimes, zero, |c|).(charEndIndex := |c| + |seps| - 2)] else []
  {
    TrailingOfConcat(c, seps);
    HeldWordOfConcat(c, seps, startTimes, endTimes, zero);
    FinalWordsInTrailing(c + seps, startTimes, endTimes, zero, |c|);
  }

  /** Both outputs when the last run has content: the words `sw` of the separators of
      `c` followed by the held word, and by its repeats and a last copy. */
  lemma OutputsWithHeldWord<T>(c: string, seps: string, startTimes: seq<T>, endTimes: seq<T>, zero: T)
    returns (sw: seq<WordTiming<T>>)
    requires 0 < |c| && !IsSeparator(c[|c| - 1]) && 0 < |seps| && AllSeparators(seps)
    requires 0 < |startTimes| && |c| + |seps| <= |endTimes| + 1
    requires HasContent(RunText(c, |c| - 1))
    ensures WordTimings(c, startTimes, endTimes, zero) == Ok(sw + [HeldWord(c, startTimes, endTimes, zero, |c|)])
    ensures WordTimings(c + seps, startTimes, endTimes, zero)
         == Ok((sw + Repeats(HeldWord(c, startTimes, endTimes, zero, |c|), endTimes, |c| - 1, |seps|))
               + [HeldWord(c, startTimes, endTimes, zero, |c|).(charEndIndex := |c| + |seps| - 2)])
  {
    WordTimingsWithTrailing(c, seps, startTimes, endTimes, zero);
    FinalWordsOfRun(c, startTimes, endTimes, zero);
    FinalWordsOfConcat(c, seps, startTimes, endTimes, zero);
    sw := SeparatorWordsBefore(c, startTimes, endTimes, zero, |c|).value;
  }

  /** The case of TrailingSeparatorsRepeatLastWord where the last run has content. */
  lemma TrailingSeparatorsRepeatHeldWord<T>(c: string, seps: string, startTimes: seq<T>, endTimes: seq<T>, zero: T)
    requires 0 < |c| && !IsSeparator(c[|c| - 1]) && 0 < |seps| && AllSeparators(seps)
    requires 0 < |startTimes| && |c| + |seps| <= |endTimes| + 1
    requires HasContent(RunText(c, |c| - 1))
    ensures WordTimings(c, startTimes, endTimes, zero).Ok?
    ensures WordTimings(c + seps, startTimes, endTimes, zero).Ok?
    ensures var ws1 := WordTimings(c, startTimes, endTimes, zero).value;
            var ws2 := WordTimings(c + seps, startTimes, endTimes, zero).value;
        && 0 < |ws1|
        && |ws2| == |ws1| + |seps|
        && ws2[..|ws1| - 1] == ws1[..|ws1| - 1]
        && (forall i :: |ws1| - 1 <= i < |ws2| - 1 ==>
              ws2[i] == ws1[|ws1| - 1].(end := endTimes[i - |ws1| + |c|], charEndIndex := i - |ws1| + |c|))
        && ws2[|ws2| - 1] == ws1[|ws1| - 1].(charEndIndex := |c| + |seps| - 2)
  {
    var sw := OutputsWithHeldWord(c, seps, startTimes, endTimes, zero);
    RepeatedTail(sw, HeldWord(c, startTimes, endTimes, zero, |c|), endTimes, |c|, |seps|,
                 WordTimings(c, startTimes, endTimes, zero).value, WordTimings(c + seps, startTimes, endTimes, zero).value);
  }

  /** The case of TrailingSeparatorsRepeatLastWord where the last run has no content. */
  lemma TrailingSeparatorsOfBlankRun<T>(c: string, seps: string, startTimes: seq<T>, endTimes: seq<T>, zero: T)
    requires 0 < |c| && !IsSeparator(c[|c| - 1]) && 0 < |seps| && AllSeparators(seps)
    requires 0 < |startTimes| && |c| + |seps| <= |endTimes| + 1
    requires !HasContent(RunText(c, |c| - 1))
    ensures WordTimings(c, startTimes, endTimes, zero).Ok?
    ensures WordTimings(c + seps, startTimes, endTimes, zero) == WordTimings(c, startTimes, endTimes, zero)
  {
    WordTimingsWithTrailing(c, seps, startTimes, endTimes, zero);
    FinalWordsOfRun(c, startTimes, endTimes, zero);
    FinalWordsOfConcat(c, seps, startTimes, endTimes, zero);
    var sw := SeparatorWordsBefore(c, startTimes, endTimes, zero, |c|).value;
    assert sw + [] == sw;
  }

  /** If the characters end in k >= 1 separators after a run with content, the record
      of that run appears k + 1 times at the end of the output: once where the run
      alone would end it, and again at every further separator, each time with the end
      time of the position before that separator, and lastly with the last end time.
      When that run has no content the separators change nothing. */
  lemma TrailingSeparatorsRepeatLastWord<T>(c: string, seps: string, startTimes: seq<T>, endTimes: seq<T>, zero: T)
    requires 0 < |c| && !IsSeparator(c[|c| - 1]) && 0 < |seps| && AllSeparators(seps)
    requires 0 < |startTimes| && |c| + |seps| <= |endTimes| + 1
    ensures WordTimings(c, startTimes, endTimes, zero).Ok?
    ensures WordTimings(c + seps, startTimes, endTimes, zero).Ok?
    ensures var ws1 := WordTimings(c, startTimes, endTimes, zero).value;
            var ws2 := WordTimings(c + seps, startTimes, endTimes, zero).value;
            var k := |seps|;
      if HasContent(RunText(c, |c| - 1)) then
        && 0 < |ws1|
        && |ws2| == |ws1| + k
        && ws2[..|ws1| - 1] == ws1[..|ws1| - 1]
        && (forall i :: |ws1| - 1 <= i < |ws2| - 1 ==>
              ws2[i] == ws1[|ws1| - 1].(end := endTimes[i - |ws1| + |c|], charEndIndex := i - |ws1| + |c|))
        && ws2[|ws2| - 1] == ws1[|ws1| - 1].(charEndIndex := |c| + k - 2)
      else
        ws2 == ws1
  {
    if HasContent(RunText(c, |c| - 1)) {
      TrailingSeparatorsRepeatHeldWord(c, seps, startTimes, endTimes, zero);
    } else {
      TrailingSeparatorsOfBlankRun(c, seps, startTimes, endTimes, zero);
    }
  }
}
