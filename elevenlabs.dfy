/** The character-to-word timing grouper of the ElevenLabs text-to-speech service.
    The speech API reports a start and an end time for every character of the spoken
    text; the grouper turns them into one record per word. Times are only ever copied,
    so their type is a parameter `T`, and `zero` stands for the literal `0` the code
    uses when a start time is missing. */
module ElevenLabs {
  import opened Wrappers
  import opened PyStr

  /** One word record: the dictionary with keys `text`, `start`, `end`,
      `char_start_index` and `char_end_index`. */
  datatype WordTiming<T> = WordTiming(text: string, start: T, end: T, charStartIndex: nat, charEndIndex: nat)

  /** The three characters that end a word. */
  predicate IsSeparator(ch: char)
  {
    ch == ' ' || ch == '\n' || ch == '\t'
  }

  /** The separators are whitespace to `str.strip()`, so a word made only of separators
      has no content. */
  lemma SeparatorIsWhitespace(ch: char)
    ensures IsSeparator(ch) ==> IsWhitespace(ch)
  {
  }

  /** A text made only of separators strips to the empty string, so it never has content. */
  lemma SeparatorsStripToEmpty(s: string)
    requires forall i :: 0 <= i < |s| ==> IsSeparator(s[i])
    ensures Strip(s) == "" && !HasContent(s)
  {
    forall i | 0 <= i < |s|
      ensures IsWhitespace(s[i])
    {
      SeparatorIsWhitespace(s[i]);
    }
    StripEmptyIffBlank(s);
  }

  /** `start_times[k]` when it exists, otherwise `0`. */
  function StartTime<T>(startTimes: seq<T>, k: nat, zero: T): (t: T)
    ensures k < |startTimes| ==> t == startTimes[k]
    ensures k >= |startTimes| ==> t == zero
  {
    if k < |startTimes| then startTimes[k] else zero
  }

  // ---------------------------------------------------------------------------
  // Positions in the character sequence
  // ---------------------------------------------------------------------------

  /** The first position at or after `i` that holds a non-separator, or `|c|`. */
  function NextNonSeparator(c: string, i: nat): (j: nat)
    requires i <= |c|
    ensures i <= j <= |c|
    ensures j < |c| ==> !IsSeparator(c[j])
    decreases |c| - i
  {
    if i == |c| || !IsSeparator(c[i]) then i else NextNonSeparator(c, i + 1)
  }

  /** The last position before `p` that holds a non-separator, or -1. */
  function PrevNonSeparator(c: string, p: nat): (k: int)
    requires p <= |c|
    ensures -1 <= k < p
    ensures k >= 0 ==> !IsSeparator(c[k])
  {
    if p == 0 then -1 else if !IsSeparator(c[p - 1]) then p - 1 else PrevNonSeparator(c, p - 1)
  }

  /** The first position of the run of non-separators that reaches position `k`. */
  function RunStart(c: string, k: nat): (a: nat)
    requires k < |c|
    ensures a <= k
    ensures a == 0 || IsSeparator(c[a - 1])
  {
    if k == 0 || IsSeparator(c[k - 1]) then k else RunStart(c, k - 1)
  }

  /** Every position NextNonSeparator skips holds a separator. */
  lemma {:induction false} NextNonSeparatorSkips(c: string, i: nat)
    requires i <= |c|
    ensures forall k :: i <= k < NextNonSeparator(c, i) ==> IsSeparator(c[k])
    decreases |c| - i
  {
    if i < |c| && IsSeparator(c[i]) {
      NextNonSeparatorSkips(c, i + 1);
    }
  }

  /** Every position PrevNonSeparator skips holds a separator. */
  lemma {:induction false} PrevNonSeparatorSkips(c: string, p: nat)
    requires p <= |c|
    ensures forall m :: PrevNonSeparator(c, p) < m < p ==> IsSeparator(c[m])
  {
    if p > 0 && IsSeparator(c[p - 1]) {
      PrevNonSeparatorSkips(c, p - 1);
    }
  }

  /** The run from RunStart(c, k) up to `k` holds no separator. */
  lemma {:induction false} RunStartSkips(c: string, k: nat)
    requires k < |c|
    ensures forall m :: RunStart(c, k) <= m < k ==> !IsSeparator(c[m])
  {
    if k > 0 && !IsSeparator(c[k - 1]) {
      RunStartSkips(c, k - 1);
    }
  }

  // ---------------------------------------------------------------------------
  // The reference definition: which word is emitted at which position
  // ---------------------------------------------------------------------------

  /** When position `q` is reached, the word being built still holds the run of
      non-separators ending at PrevNonSeparator(c, q): either that run ends just
      before `q`, or no non-separator follows, so no new word was started. */
  predicate HoldsRun(c: string, q: nat)
    requires q <= |c|
  {
    var k := PrevNonSeparator(c, q);
    k >= 0 && (k == q - 1 || NextNonSeparator(c, q) == |c|)
  }

  /** The text of the run of non-separators that ends at position `k`. */
  function RunText(c: string, k: nat): (r: string)
    requires k < |c|
  {
    c[RunStart(c, k)..k + 1]
  }

  /** A word is emitted at separator position `q` when the word held there has content. */
  predicate EmitsAt(c: string, q: nat)
    ensures EmitsAt(c, q) ==> 0 < q < |c| && IsSeparator(c[q]) && PrevNonSeparator(c, q) >= 0
  {
    && q < |c|
    && IsSeparator(c[q])
    && HoldsRun(c, q)
    && !IsBlank(RunText(c, PrevNonSeparator(c, q)))
  }

  /** The record emitted at separator position `q`: the held run, with content, from
      its start index to the last non-separator before `q`, starting at its first
      character's start time; it is closed at `q - 1` with the end time there. */
  function SeparatorWord<T>(c: string, startTimes: seq<T>, endTimes: seq<T>, zero: T, q: nat): (r: WordTiming<T>)
    requires EmitsAt(c, q) && q <= |endTimes|
    ensures r.charEndIndex == q - 1 && r.end == endTimes[q - 1]
    ensures r.charStartIndex <= PrevNonSeparator(c, q) < q
    ensures r.text == c[r.charStartIndex..PrevNonSeparator(c, q) + 1] && !IsBlank(r.text)
    ensures r.start == StartTime(startTimes, r.charStartIndex, zero)
  {
    var k := PrevNonSeparator(c, q);
    var a := RunStart(c, k);
    WordTiming(c[a..k + 1], StartTime(startTimes, a, zero), endTimes[q - 1], a, q - 1)
  }

  /** The records emitted at the separator positions before `p`, left to right, or
      IndexError if one of them needs an end time past the end of `endTimes`. */
  function SeparatorWordsBefore<T>(c: string, startTimes: seq<T>, endTimes: seq<T>, zero: T, p: nat): (r: Result<seq<WordTiming<T>>>)
    requires p <= |c|
  {
    if p == 0 then Ok([])
    else match SeparatorWordsBefore(c, startTimes, endTimes, zero, p - 1)
      case Err(e) => Err(e)
      case Ok(ws) =>
        if !EmitsAt(c, p - 1) then Ok(ws)
        else if p - 1 > |endTimes| then Err(IndexError)
        else Ok(ws + [SeparatorWord(c, startTimes, endTimes, zero, p - 1)])
  }

  /** The separators before `p` emit fewer than `p` records, and the scan can only fail
      with IndexError, once `p` is past `len(end_times) + 1`. */
  lemma {:induction false} SeparatorWordsBounds<T>(c: string, startTimes: seq<T>, endTimes: seq<T>, zero: T, p: nat)
    requires p <= |c|
    ensures var r := SeparatorWordsBefore(c, startTimes, endTimes, zero, p);
            && (r.Err? ==> r.error == IndexError && p > |endTimes| + 1)
            && (r.Ok? ==> |r.value| < p || p == 0)
  {
    if p > 0 {
      SeparatorWordsBounds(c, startTimes, endTimes, zero, p - 1);
    }
  }

  /** The record appended after the last character, if the word then held has content:
      its end is the last end time. */
  function FinalWords<T>(c: string, startTimes: seq<T>, endTimes: seq<T>, zero: T): (ws: seq<WordTiming<T>>)
    requires |endTimes| > 0
    ensures |ws| <= 1
    ensures |ws| == 1 ==> ws[0].end == endTimes[|endTimes| - 1] && HasContent(ws[0].text)
    ensures |ws| == 1 ==> ws[0].charStartIndex <= ws[0].charEndIndex < |c|
  {
    var k := PrevNonSeparator(c, |c|);
    if k < 0 || !HasContent(RunText(c, k)) then []
    else
      var a := RunStart(c, k);
      [WordTiming(c[a..k + 1], StartTime(startTimes, a, zero), endTimes[|endTimes| - 1], a,
                  if k == |c| - 1 then k else |c| - 2)]
  }

  /** What the grouper returns: nothing when an input is empty; an IndexError when a
      word ends at a separator whose preceding position lies past the end times;
      otherwise the separator-emitted records followed by the final one. */
  function WordTimings<T>(c: string, startTimes: seq<T>, endTimes: seq<T>, zero: T): (r: Result<seq<WordTiming<T>>>)
    ensures |c| == 0 || |startTimes| == 0 || |endTimes| == 0 ==> r == Ok([])
    ensures r.Err? ==> r.error == IndexError && |c| > |endTimes| + 1
    ensures r.Ok? ==> |r.value| <= |c|
  {
    if |c| == 0 || |startTimes| == 0 || |endTimes| == 0 then Ok([])
    else
      SeparatorWordsBounds(c, startTimes, endTimes, zero, |c|);
      match SeparatorWordsBefore(c, startTimes, endTimes, zero, |c|)
      case Err(e) => Err(e)
      case Ok(ws) => Ok(ws + FinalWords(c, startTimes, endTimes, zero))
  }

  // ---------------------------------------------------------------------------
  // The grouper itself
  // ---------------------------------------------------------------------------

  /** The word being built after the first `i` characters have been scanned. */
  ghost predicate CurrentWordAt<T>(c: string, startTimes: seq<T>, zero: T, i: nat, cur: WordTiming<T>)
    requires 0 < |startTimes| && i <= |c|
  {
    if i == 0 then
      cur.text == "" && cur.charStartIndex == 0 && cur.start == startTimes[0]
    else if !IsSeparator(c[i - 1]) then
      var a := RunStart(c, i - 1);
      && cur.text == c[a..i] && cur.charStartIndex == a
      && cur.start == StartTime(startTimes, a, zero) && cur.charEndIndex == i - 1
    else if NextNonSeparator(c, i) < |c| then
      var j := NextNonSeparator(c, i);
      cur.text == "" && cur.charStartIndex == j && cur.start == StartTime(startTimes, j, zero)
    else
      var k := PrevNonSeparator(c, i);
      if k < 0 then cur.text == ""
      else
        var a := RunStart(c, k);
        && cur.text == c[a..k + 1] && cur.charStartIndex == a
        && cur.start == StartTime(startTimes, a, zero)
        && cur.charEndIndex == (if HasContent(cur.text) then i - 2 else k)
  }

  /** Scanning a non-separator appends it to the current word and emits nothing. */
  lemma StepNonSeparator<T>(c: string, startTimes: seq<T>, zero: T, i: nat, cur: WordTiming<T>)
    requires 0 < |startTimes| && i < |c| && !IsSeparator(c[i])
    requires CurrentWordAt(c, startTimes, zero, i, cur)
    ensures CurrentWordAt(c, startTimes, zero, i + 1, cur.(text := cur.text + [c[i]], charEndIndex := i))
  {
    var a := RunStart(c, i);
    if i > 0 && !IsSeparator(c[i - 1]) {
      assert a == RunStart(c, i - 1);
      assert c[a..i + 1] == c[a..i] + [c[i]];
    } else {
      assert a == i;
      if i > 0 {
        assert NextNonSeparator(c, i) == i;
      }
      assert c[a..i + 1] == [c[i]];
    }
  }

  /** At a separator, a word is emitted exactly when the current word has content,
      and the emitted record is the current word closed at the preceding position. */
  lemma EmitsAtSeparator<T>(c: string, startTimes: seq<T>, endTimes: seq<T>, zero: T, i: nat, cur: WordTiming<T>)
    requires 0 < |startTimes| && i < |c| && IsSeparator(c[i])
    requires CurrentWordAt(c, startTimes, zero, i, cur)
    ensures EmitsAt(c, i) <==> HasContent(cur.text)
    ensures EmitsAt(c, i) && i <= |endTimes| ==>
              i >= 1 && SeparatorWord(c, startTimes, endTimes, zero, i) == cur.(end := endTimes[i - 1], charEndIndex := i - 1)
  {
    assert HasContent("") == false;
    if i > 0 && IsSeparator(c[i - 1]) {
      assert PrevNonSeparator(c, i + 0) == PrevNonSeparator(c, i);
      if NextNonSeparator(c, i) < |c| {
        var k := PrevNonSeparator(c, i);
        assert !HoldsRun(c, i);
      }
    }
  }

  /** Scanning a separator closes the current word (when it has content) and starts a
      new one when a non-separator follows. */
  lemma StepSeparator<T>(c: string, startTimes: seq<T>, zero: T, i: nat, cur: WordTiming<T>, closed: WordTiming<T>, next: nat)
    requires 0 < |startTimes| && i < |c| && IsSeparator(c[i])
    requires CurrentWordAt(c, startTimes, zero, i, cur)
    requires closed == if HasContent(cur.text) then cur.(end := closed.end, charEndIndex := i - 1) else cur
    requires next == NextNonSeparator(c, i + 1)
    ensures HasContent(cur.text) ==> i >= 1
    ensures CurrentWordAt(c, startTimes, zero, i + 1,
              if next < |c| then WordTiming("", StartTime(startTimes, next, zero), zero, next, next) else closed)
  {
    EmitsAtSeparator(c, startTimes, [], zero, i, cur);
    assert PrevNonSeparator(c, i + 1) == PrevNonSeparator(c, i);
    assert NextNonSeparator(c, i) == NextNonSeparator(c, i + 1);
  }

  /** Once an IndexError is raised, scanning further characters keeps it. */
  lemma {:induction false} ErrorPersists<T>(c: string, startTimes: seq<T>, endTimes: seq<T>, zero: T, p: nat, q: nat)
    requires p <= q <= |c|
    requires SeparatorWordsBefore(c, startTimes, endTimes, zero, p).Err?
    ensures SeparatorWordsBefore(c, startTimes, endTimes, zero, q) == SeparatorWordsBefore(c, startTimes, endTimes, zero, p)
    decreases q - p
  {
    if p < q {
      ErrorPersists(c, startTimes, endTimes, zero, p, q - 1);
    }
  }

  /** After the last character, the current word is appended exactly when the final
      record exists, and it is that record once its end is set. */
  lemma FinalWordMatches<T>(c: string, startTimes: seq<T>, endTimes: seq<T>, zero: T, cur: WordTiming<T>)
    requires 0 < |c| && 0 < |startTimes| && 0 < |endTimes|
    requires CurrentWordAt(c, startTimes, zero, |c|, cur)
    ensures FinalWords(c, startTimes, endTimes, zero)
         == if HasContent(cur.text) then [cur.(end := endTimes[|endTimes| - 1])] else []
  {
    var n := |c|;
    var k := PrevNonSeparator(c, n);
    if !IsSeparator(c[n - 1]) {
      assert k == n - 1;
    } else {
      assert NextNonSeparator(c, n) == n;
      if k < 0 {
        assert cur.text == "";
        assert !HasContent("");
      }
    }
  }

  /** The inner loop of the grouper: the index of the first non-separator at or after
      `from`, or the length when only separators follow. */
  method SkipSeparators(characters: string, from: nat) returns (next: nat)
    requires from <= |characters|
    ensures next == NextNonSeparator(characters, from)
  {
    next := from;
    while next < |characters| && IsSeparator(characters[next])
      invariant from <= next <= |characters|
      invariant NextNonSeparator(characters, next) == NextNonSeparator(characters, from)
    {
      next := next + 1;
    }
  }

  /** One separator of the grouper's loop: the current word is closed and recorded
      when it has content (IndexError when the end time before the separator is
      missing), and a new word starts at the next non-separator, if there is one. */
  method ScanSeparator<T>(characters: string, startTimes: seq<T>, endTimes: seq<T>, zero: T, i: nat,
                          current: WordTiming<T>, words: seq<WordTiming<T>>)
    returns (ok: bool, current': WordTiming<T>, words': seq<WordTiming<T>>)
    requires 0 < |startTimes| && i < |characters| && IsSeparator(characters[i])
    requires CurrentWordAt(characters, startTimes, zero, i, current)
    requires SeparatorWordsBefore(characters, startTimes, endTimes, zero, i) == Ok(words)
    ensures !ok ==> SeparatorWordsBefore(characters, startTimes, endTimes, zero, i + 1) == Err(IndexError)
    ensures ok ==> SeparatorWordsBefore(characters, startTimes, endTimes, zero, i + 1) == Ok(words')
    ensures ok ==> CurrentWordAt(characters, startTimes, zero, i + 1, current')
  {
    EmitsAtSeparator(characters, startTimes, endTimes, zero, i, current);
    current', words' := current, words;
    var hasContent := StripIsNonEmpty(current.text);
    if hasContent {
      if i - 1 >= |endTimes| {
        return false, current', words';
      }
      current' := current.(end := endTimes[i - 1], charEndIndex := i - 1);
      words' := words + [current'];
    }
    var next := SkipSeparators(characters, i + 1);
    StepSeparator(characters, startTimes, zero, i, current, current', next);
    if next < |characters| {
      current' := WordTiming("", if next < |startTimes| then startTimes[next] else zero, zero, next, next);
    }
    ok := true;
  }

  /** `_extract_word_timings`: scans the characters once, growing the current word on
      a non-separator and closing it on a separator. */
  method ExtractWordTimings<T>(characters: string, startTimes: seq<T>, endTimes: seq<T>, zero: T)
    returns (r: Result<seq<WordTiming<T>>>)
    ensures |characters| == 0 || |startTimes| == 0 || |endTimes| == 0 ==> r == Ok([])
    ensures r == WordTimings(characters, startTimes, endTimes, zero)
  {
    if |characters| == 0 || |startTimes| == 0 || |endTimes| == 0 {
      return Ok([]);
    }
    var n := |characters|;
    var words: seq<WordTiming<T>> := [];
    var current := WordTiming("", startTimes[0], zero, 0, 0);
    for i := 0 to n
      invariant CurrentWordAt(characters, startTimes, zero, i, current)
      invariant SeparatorWordsBefore(characters, startTimes, endTimes, zero, i) == Ok(words)
    {
      var ch := characters[i];
      if IsSeparator(ch) {
        var ok;
        ok, current, words := ScanSeparator(characters, startTimes, endTimes, zero, i, current, words);
        if !ok {
          ErrorPersists(characters, startTimes, endTimes, zero, i + 1, n);
          return Err(IndexError);
        }
      } else {
        StepNonSeparator(characters, startTimes, zero, i, current);
        assert !EmitsAt(characters, i);
        current := current.(text := current.text + [ch], charEndIndex := i);
      }
    }
    FinalWordMatches(characters, startTimes, endTimes, zero, current);
    ghost var emitted := words;
    assert WordTimings(characters, startTimes, endTimes, zero) == Ok(emitted + FinalWords(characters, startTimes, endTimes, zero));
    var hasContent := StripIsNonEmpty(current.text);
    if hasContent {
      current := current.(end := endTimes[|endTimes| - 1]);
      words := words + [current];
    } else {
      assert words == emitted + [];
    }
    assert words == emitted + FinalWords(characters, startTimes, endTimes, zero);
    r := Ok(words);
  }
}

/** The timed voiceover service of the same source file. Only its word-timing helper is
    modelled; it keeps no state of its own. */
module ElevenLabsTimed {
  import opened Wrappers
  import ElevenLabs

  class ElevenLabsTimedService {
    /** `ElevenLabsTimedService._extract_word_timings`: delegates to the module-level grouper. */
    method ExtractWordTimings<T>(characters: string, startTimes: seq<T>, endTimes: seq<T>, zero: T)
      returns (r: Result<seq<ElevenLabs.WordTiming<T>>>)
      ensures r == ElevenLabs.WordTimings(characters, startTimes, endTimes, zero)
    {
      r := ElevenLabs.ExtractWordTimings(characters, startTimes, endTimes, zero);
    }
  }
}
