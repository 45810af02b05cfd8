/**
 * The caption history engine of the overlay window (OverlayForm.cs): building
 * an English/Portuguese entry from a recognition result, deciding whether a
 * new final result continues the last caption block, joining the two texts,
 * and the two parallel lists `history` / `historyTimestamps` that hold the
 * blocks. Time is an integer number of milliseconds given by the caller.
 */
module Captions {
  import opened Wrappers
  import opened Text
  import opened Env
  import opened IntParse
  import TE = TranslationEnvironment
  import Wrapping

  /** One caption block: the English and the Portuguese side. */
  datatype TranslationEntry = TranslationEntry(english: string, portuguese: string)

  const HistorySize: nat := 6
  const MergeQuickPauseMsDefault: int := 1000
  const NewBlockPauseMsDefault: int := 1500
  /** The status line after a translation with Portuguese text arrives. */
  const TranslationReceivedStatus: string := "Tradução recebida."
  /** A continuation this short merges whatever its first word is. */
  const ShortContinuationLength: nat := 45
  /** Portuguese words that, heading a new result, mark it as the continuation of a phrase. */
  const MergeConnectors: seq<string> :=
    ["e", "mas", "ou", "que", "porque", "entao", "então", "de", "do", "da", "dos", "das", "com", "para"]

  // ---------------------------------------------------------------------
  // Thresholds
  // ---------------------------------------------------------------------

  /**
   * `ReadIntFromEnv`: the variable's value when `int.TryParse` accepts it and
   * it is positive, otherwise the default.
   */
  function ReadIntFromEnv(env: Environment, variableName: string, defaultValue: int): (r: int)
    ensures GetVariable(env, variableName).None? ==> r == defaultValue
    ensures r == defaultValue || (r > 0 && ParseInt32(GetVariable(env, variableName)) == Some(r))
    ensures var parsed := ParseInt32(GetVariable(env, variableName));
      parsed.Some? && parsed.value > 0 ==> r == parsed.value
  {
    match ParseInt32(GetVariable(env, variableName))
    case None => defaultValue
    case Some(parsed) => if parsed <= 0 then defaultValue else parsed
  }

  /** A positive override written in decimal is the value `ReadIntFromEnv` returns. */
  lemma {:induction false} ReadIntFromEnvOverride(env: Environment, variableName: string, defaultValue: int, n: int)
    requires 0 < n <= Int32Max
    requires GetVariable(env, variableName) == Some(Show(n))
    ensures ReadIntFromEnv(env, variableName, defaultValue) == n
  {
    ParseShowRoundTrip(n);
  }

  /** The two pauses (`MergeQuickPause`, `NewBlockPause`) in milliseconds. */
  datatype MergeSettings = MergeSettings(quickPauseMs: int, newBlockPauseMs: int)

  /** The static initialisers of `MergeQuickPause` and `NewBlockPause`. */
  function LoadMergeSettings(env: Environment): (s: MergeSettings)
    ensures s.quickPauseMs > 0 && s.newBlockPauseMs > 0
    ensures "MERGE_QUICK_PAUSE_MS" !in env ==> s.quickPauseMs == MergeQuickPauseMsDefault
    ensures "NEW_BLOCK_PAUSE_MS" !in env ==> s.newBlockPauseMs == NewBlockPauseMsDefault
  {
    MergeSettings(
      ReadIntFromEnv(env, "MERGE_QUICK_PAUSE_MS", MergeQuickPauseMsDefault),
      ReadIntFromEnv(env, "NEW_BLOCK_PAUSE_MS", NewBlockPauseMsDefault))
  }

  // ---------------------------------------------------------------------
  // Entries
  // ---------------------------------------------------------------------

  /** `IsEnglish`: a non-blank tag starting with `en` in any letter case. */
  predicate IsEnglish(language: string) {
    !IsBlank(language) && StartsWithIgnoreCase(language, "en")
  }

  /** `IsPortuguese`: a non-blank tag starting with `pt` in any letter case. */
  predicate IsPortuguese(language: string) {
    !IsBlank(language) && StartsWithIgnoreCase(language, "pt")
  }

  /** No tag is both English and Portuguese. */
  lemma {:induction false} LanguageSidesExclusive(language: string)
    ensures !(IsEnglish(language) && IsPortuguese(language))
  {
    if IsEnglish(language) {
      assert FoldCase(language[..2][0]) == 'E';
    }
  }

  /** The tags of either translation mode fall on opposite sides: one English, the other Portuguese. */
  lemma {:induction false} ModeTagsOnOppositeSides(mode: TE.TranslationMode)
    ensures mode == TE.EnglishToPortuguese ==>
      && IsEnglish(TE.GetRecognitionLanguage(mode)) && !IsPortuguese(TE.GetRecognitionLanguage(mode))
      && IsPortuguese(TE.GetTargetLanguage(mode)) && !IsEnglish(TE.GetTargetLanguage(mode))
    ensures mode == TE.PortugueseToEnglish ==>
      && IsPortuguese(TE.GetRecognitionLanguage(mode)) && !IsEnglish(TE.GetRecognitionLanguage(mode))
      && IsEnglish(TE.GetTargetLanguage(mode)) && !IsPortuguese(TE.GetTargetLanguage(mode))
  {
    var rec, tgt := TE.GetRecognitionLanguage(mode), TE.GetTargetLanguage(mode);
    assert !IsWhiteSpace(rec[0]) && !IsWhiteSpace(tgt[0]);
    assert rec[..2] == [rec[0], rec[1]] && tgt[..2] == [tgt[0], tgt[1]];
    LanguageSidesExclusive(rec);
    LanguageSidesExclusive(tgt);
  }

  /**
   * `BuildEntry`: the target language's side gets the translation and the
   * recognition language's side the recognised text (the target wins when both
   * name the same side); a blank English side falls back to the translation and
   * a blank Portuguese side to the recognised text.
   */
  function BuildEntry(recognitionLanguage: string, recognizedText: string, targetLanguage: string, translatedText: string)
    : (e: TranslationEntry)
    ensures e.portuguese ==
      if IsPortuguese(targetLanguage) && !IsBlank(translatedText) then translatedText else recognizedText
    ensures e.english ==
      if !IsEnglish(targetLanguage) && IsEnglish(recognitionLanguage) && !IsBlank(recognizedText)
      then recognizedText else translatedText
  {
    var english :=
      if IsEnglish(targetLanguage) then translatedText
      else if IsEnglish(recognitionLanguage) then recognizedText
      else "";
    var portuguese :=
      if IsPortuguese(targetLanguage) then translatedText
      else if IsPortuguese(recognitionLanguage) then recognizedText
      else "";
    TranslationEntry(
      if IsBlank(english) then translatedText else english,
      if IsBlank(portuguese) then recognizedText else portuguese)
  }

  /** The entry each translation mode produces from a recognised text and its translation. */
  lemma {:induction false} BuildEntryForMode(mode: TE.TranslationMode, recognizedText: string, translatedText: string)
    ensures var e := BuildEntry(TE.GetRecognitionLanguage(mode), recognizedText, TE.GetTargetLanguage(mode), translatedText);
      && (mode == TE.EnglishToPortuguese ==>
            && e.english == (if IsBlank(recognizedText) then translatedText else recognizedText)
            && e.portuguese == (if IsBlank(translatedText) then recognizedText else translatedText))
      && (mode == TE.PortugueseToEnglish ==>
            e.english == translatedText && e.portuguese == recognizedText)
  {
    ModeTagsOnOppositeSides(mode);
  }

  // ---------------------------------------------------------------------
  // Merging
  // ---------------------------------------------------------------------

  /** A trimmed text that ends a sentence or clause: `.`, `?`, `!`, `:` or `;`. */
  predicate ClosesSentence(t: string) {
    EndsWith(t, '.') || EndsWith(t, '?') || EndsWith(t, '!') || EndsWith(t, ':') || EndsWith(t, ';')
  }

  /** `Split(' ', RemoveEmptyEntries).FirstOrDefault() ?? string.Empty`. */
  function FirstWord(t: string): (w: string)
    ensures t != [] && t[0] != ' ' ==> w == t[..IndexOf(t, ' ')]
  {
    var words := Split(t, ' ');
    if words == [] then "" else words[0]
  }

  /** `MergeConnectors.Contains(word, StringComparer.OrdinalIgnoreCase)`. */
  predicate IsConnector(word: string) {
    exists k :: 0 <= k < |MergeConnectors| && EqualsIgnoreCase(MergeConnectors[k], word)
  }

  /**
   * `ShouldMerge`: whether `currentText`, arriving `elapsedMs` after the
   * previous block was last touched, continues that block. The short-text rule
   * counts UTF-16 code units, as `string.Length` does; a text starting above
   * U+FFFF starts with a surrogate, which is not lower case, and so does the
   * model's `IsLower`.
   */
  function ShouldMerge(previousText: string, currentText: string, elapsedMs: int, settings: MergeSettings): bool {
    if IsBlank(previousText) || IsBlank(currentText) then false
    else
      var previousTrim := Trim(previousText);
      var currentTrim := Trim(currentText);
      if ClosesSentence(previousTrim) then false
      else if elapsedMs >= settings.newBlockPauseMs then false
      else if elapsedMs <= settings.quickPauseMs then true
      else if Utf16Length(currentTrim) <= ShortContinuationLength then true
      else if IsConnector(FirstWord(currentTrim)) then true
      else IsLower(currentTrim[0])
  }

  /** The rules `ShouldMerge` follows, one by one. */
  lemma ShouldMergeRules(previousText: string, currentText: string, elapsedMs: int, settings: MergeSettings)
    // blank texts, a closed sentence and a long pause each start a new block, whatever else holds
    ensures var r := ShouldMerge(previousText, currentText, elapsedMs, settings);
      r ==> !IsBlank(previousText) && !IsBlank(currentText)
    ensures var r := ShouldMerge(previousText, currentText, elapsedMs, settings);
      r ==> !ClosesSentence(Trim(previousText)) && elapsedMs < settings.newBlockPauseMs
    // an open sentence continued within the quick pause always merges
    ensures var r := ShouldMerge(previousText, currentText, elapsedMs, settings);
      (&& !IsBlank(previousText) && !IsBlank(currentText) && !ClosesSentence(Trim(previousText))
       && elapsedMs < settings.newBlockPauseMs && elapsedMs <= settings.quickPauseMs) ==> r
    // between the two pauses, a short text, a leading connector or a lower-case start merges
    ensures var r := ShouldMerge(previousText, currentText, elapsedMs, settings);
      (&& !IsBlank(previousText) && !IsBlank(currentText) && !ClosesSentence(Trim(previousText))
       && settings.quickPauseMs < elapsedMs < settings.newBlockPauseMs) ==>
      var t := Trim(currentText);
      (r <==> Utf16Length(t) <= ShortContinuationLength || IsConnector(FirstWord(t)) || IsLower(t[0]))
  {
  }

  /** A text that merges after a longer pause also merges after a shorter one. */
  lemma {:induction false} ShouldMergeAntitone(
    previousText: string, currentText: string, shorter: int, longer: int, settings: MergeSettings)
    requires shorter <= longer
    requires ShouldMerge(previousText, currentText, longer, settings)
    ensures ShouldMerge(previousText, currentText, shorter, settings)
  {
    var t := Trim(currentText);
    if settings.quickPauseMs < shorter {
      assert Utf16Length(t) <= ShortContinuationLength || IsConnector(FirstWord(t)) || IsLower(t[0]);
    }
  }

  /**
   * `MergePhrase`: the two trimmed texts joined by one space, or directly when
   * the first ends with a hyphen; a blank side contributes nothing.
   */
  function MergePhrase(previousText: string, currentText: string): string {
    if IsBlank(previousText) then Trim(currentText)
    else if IsBlank(currentText) then Trim(previousText)
    else
      var previousTrim := Trim(previousText);
      var currentTrim := Trim(currentText);
      if EndsWith(previousTrim, '-') then previousTrim + currentTrim
      else previousTrim + " " + currentTrim
  }

  /**
   * The merged text is trimmed, empty only when both sides are blank, starts
   * with the trimmed previous text, ends with the trimmed current one, and
   * puts exactly one space between them unless a hyphen glues them.
   */
  lemma MergePhraseShape(previousText: string, currentText: string)
    ensures var r := MergePhrase(previousText, currentText);
      && IsTrimmed(r)
      && (r == [] <==> IsBlank(previousText) && IsBlank(currentText))
      && (!IsBlank(previousText) ==> Trim(previousText) <= r)
      && (!IsBlank(currentText) ==> |Trim(currentText)| <= |r| && r[|r| - |Trim(currentText)|..] == Trim(currentText))
      && |r| == |Trim(previousText)| + |Trim(currentText)| +
        (if !IsBlank(previousText) && !IsBlank(currentText) && !EndsWith(Trim(previousText), '-') then 1 else 0)
      && (!IsBlank(previousText) && !IsBlank(currentText) && !EndsWith(Trim(previousText), '-') ==>
            r[|Trim(previousText)|] == ' ')
  {
    var p, c := Trim(previousText), Trim(currentText);
    if !IsBlank(previousText) && !IsBlank(currentText) {
      JoinShape(p, if EndsWith(p, '-') then "" else " ", c);
    }
  }

  /** Two trimmed non-empty texts joined directly or by one space. */
  lemma JoinShape(p: string, sep: string, c: string)
    requires IsTrimmed(p) && IsTrimmed(c) && p != [] && c != [] && (sep == "" || sep == " ")
    ensures var r := p + sep + c;
      && IsTrimmed(r) && r != [] && p <= r && |c| <= |r| && r[|r| - |c|..] == c
      && |r| == |p| + |sep| + |c|
      && (sep == " " ==> r[|p|] == ' ')
  {
    var r := p + sep + c;
    assert r[0] == p[0] && r[|r| - 1] == c[|c| - 1];
    assert r[|r| - |c|..] == c;
    if sep == " " {
      assert r[|p|] == ' ';
    }
  }

  /** Without a trailing hyphen to glue them, merging keeps every word of both texts, in order. */
  lemma {:induction false} MergePhraseWords(previousText: string, currentText: string)
    requires !EndsWith(Trim(previousText), '-')
    ensures Words(MergePhrase(previousText, currentText)) == Words(previousText) + Words(currentText)
  {
    var p, c := Trim(previousText), Trim(currentText);
    if IsBlank(previousText) {
      assert MergePhrase(previousText, currentText) == c && p == [];
      TrimmedIsFixedPoint(c);
    } else if IsBlank(currentText) {
      assert MergePhrase(previousText, currentText) == p && c == [];
      TrimmedIsFixedPoint(p);
      assert Split(p, ' ') + [] == Split(p, ' ');
    } else {
      assert MergePhrase(previousText, currentText) == p + " " + c;
      WordsOfSpacedJoin(p, c);
    }
  }

  lemma {:induction false} WordsOfSpacedJoin(p: string, c: string)
    requires IsTrimmed(p) && IsTrimmed(c) && p != [] && c != []
    ensures Words(p + " " + c) == Split(p, ' ') + Split(c, ' ')
  {
    var r := p + " " + c;
    assert IsTrimmed(r) by { assert r[0] == p[0] && r[|r| - 1] == c[|c| - 1]; }
    TrimmedIsFixedPoint(r);
    assert r == p + [' '] + c;
    SplitConcat(p, c, ' ');
  }

  /** Both sides of the last block merged with the incoming entry. */
  function MergeEntries(previous: TranslationEntry, incoming: TranslationEntry): TranslationEntry {
    TranslationEntry(MergePhrase(previous.english, incoming.english), MergePhrase(previous.portuguese, incoming.portuguese))
  }

  // ---------------------------------------------------------------------
  // History
  // ---------------------------------------------------------------------

  /** The two parallel lists, as values. */
  datatype HistoryState = HistoryState(entries: seq<TranslationEntry>, timestamps: seq<int>)

  /**
   * What `AddOrMergeHistory` does to the lists: append the entry stamped `now`,
   * or, when its Portuguese continues the last block, merge it into that block
   * and restamp it.
   */
  function AddOrMerge(
    entries: seq<TranslationEntry>, timestamps: seq<int>, incoming: TranslationEntry, now: int, settings: MergeSettings)
    : (r: HistoryState)
    requires |entries| == |timestamps|
    ensures |r.entries| == |r.timestamps|
  {
    if entries == [] then HistoryState([incoming], [now])
    else
      var last := |entries| - 1;
      if !ShouldMerge(entries[last].portuguese, incoming.portuguese, now - timestamps[last], settings) then
        HistoryState(entries + [incoming], timestamps + [now])
      else
        HistoryState(entries[last := MergeEntries(entries[last], incoming)], timestamps[last := now])
  }

  /**
   * The two outcomes of `AddOrMerge`: a new block is appended exactly when the
   * history is empty or `ShouldMerge` refuses; otherwise only the last block
   * and its time stamp change, the block becoming the merge of the two.
   */
  lemma AddOrMergeShape(
    entries: seq<TranslationEntry>, timestamps: seq<int>, incoming: TranslationEntry, now: int, settings: MergeSettings)
    requires |entries| == |timestamps|
    ensures var r := AddOrMerge(entries, timestamps, incoming, now, settings);
      |r.entries| == |entries| + 1 <==>
        (entries == [] || !ShouldMerge(entries[|entries| - 1].portuguese, incoming.portuguese,
                                       now - timestamps[|timestamps| - 1], settings))
    ensures var r := AddOrMerge(entries, timestamps, incoming, now, settings);
      |r.entries| == |entries| + 1 ==> r.entries == entries + [incoming] && r.timestamps == timestamps + [now]
    ensures var r := AddOrMerge(entries, timestamps, incoming, now, settings);
      |r.entries| != |entries| + 1 ==>
        && |entries| > 0 && |r.entries| == |entries|
        && r.entries[..|entries| - 1] == entries[..|entries| - 1]
        && r.entries[|entries| - 1] == MergeEntries(entries[|entries| - 1], incoming)
        && r.timestamps[..|timestamps| - 1] == timestamps[..|timestamps| - 1]
        && r.timestamps[|timestamps| - 1] == now
  {
    if entries == [] || !ShouldMerge(entries[|entries| - 1].portuguese, incoming.portuguese,
                                     now - timestamps[|timestamps| - 1], settings) {
      AppendStep(entries, timestamps, incoming, now, settings);
    } else {
      MergeStep(entries, timestamps, incoming, now, settings);
    }
  }

  /** When the history is empty or the incoming block starts a new one, `AddOrMerge` appends it with its time stamp. */
  lemma AppendStep(
    entries: seq<TranslationEntry>, timestamps: seq<int>, incoming: TranslationEntry, now: int, settings: MergeSettings)
    requires |entries| == |timestamps|
    requires entries == [] || !ShouldMerge(entries[|entries| - 1].portuguese, incoming.portuguese,
                                           now - timestamps[|timestamps| - 1], settings)
    ensures AddOrMerge(entries, timestamps, incoming, now, settings) == HistoryState(entries + [incoming], timestamps + [now])
  {
  }

  /** When the incoming block continues the last one, `AddOrMerge` replaces the last block and its time stamp. */
  lemma MergeStep(
    entries: seq<TranslationEntry>, timestamps: seq<int>, incoming: TranslationEntry, now: int, settings: MergeSettings)
    requires |entries| == |timestamps| && entries != []
    requires ShouldMerge(entries[|entries| - 1].portuguese, incoming.portuguese,
                         now - timestamps[|timestamps| - 1], settings)
    ensures AddOrMerge(entries, timestamps, incoming, now, settings)
      == HistoryState(entries[|entries| - 1 := MergeEntries(entries[|entries| - 1], incoming)],
                      timestamps[|timestamps| - 1 := now])
  {
  }

  /** Every Portuguese word of the blocks, in order. */
  function PortugueseWords(entries: seq<TranslationEntry>): seq<string> {
    if entries == [] then []
    else PortugueseWords(entries[..|entries| - 1]) + Words(entries[|entries| - 1].portuguese)
  }

  /** Every English word of the blocks, in order. */
  function EnglishWords(entries: seq<TranslationEntry>): seq<string> {
    if entries == [] then []
    else EnglishWords(entries[..|entries| - 1]) + Words(entries[|entries| - 1].english)
  }

  /**
   * Adding a result to the history loses no word and reorders none: the words
   * of the blocks are the old words followed by the incoming ones, on both
   * sides, unless a hyphen-ended last block glues two words together.
   */
  lemma {:induction false} AddOrMergeKeepsWords(
    entries: seq<TranslationEntry>, timestamps: seq<int>, incoming: TranslationEntry, now: int, settings: MergeSettings)
    requires |entries| == |timestamps|
    requires entries != [] ==>
      && !EndsWith(Trim(entries[|entries| - 1].portuguese), '-')
      && !EndsWith(Trim(entries[|entries| - 1].english), '-')
    ensures var r := AddOrMerge(entries, timestamps, incoming, now, settings).entries;
      && PortugueseWords(r) == PortugueseWords(entries) + Words(incoming.portuguese)
      && EnglishWords(r) == EnglishWords(entries) + Words(incoming.english)
  {
    if entries == [] || !ShouldMerge(entries[|entries| - 1].portuguese, incoming.portuguese,
                                     now - timestamps[|timestamps| - 1], settings) {
      AppendStep(entries, timestamps, incoming, now, settings);
      AppendKeepsWords(entries, incoming);
    } else {
      MergeStep(entries, timestamps, incoming, now, settings);
      MergeKeepsWords(entries, incoming);
    }
  }

  lemma {:induction false} AppendKeepsWords(entries: seq<TranslationEntry>, incoming: TranslationEntry)
    ensures PortugueseWords(entries + [incoming]) == PortugueseWords(entries) + Words(incoming.portuguese)
    ensures EnglishWords(entries + [incoming]) == EnglishWords(entries) + Words(incoming.english)
  {
    assert (entries + [incoming])[..|entries|] == entries;
  }

  lemma {:induction false} MergeKeepsWords(entries: seq<TranslationEntry>, incoming: TranslationEntry)
    requires entries != []
    requires !EndsWith(Trim(entries[|entries| - 1].portuguese), '-')
    requires !EndsWith(Trim(entries[|entries| - 1].english), '-')
    ensures var r := entries[|entries| - 1 := MergeEntries(entries[|entries| - 1], incoming)];
      && PortugueseWords(r) == PortugueseWords(entries) + Words(incoming.portuguese)
      && EnglishWords(r) == EnglishWords(entries) + Words(incoming.english)
  {
    var n := |entries| - 1;
    var last := entries[n];
    var merged := MergeEntries(last, incoming);
    var r := entries[n := merged];
    var pw, ew := PortugueseWords(entries[..n]), EnglishWords(entries[..n]);
    WordsOfReplacedLast(entries, merged);
    assert PortugueseWords(r) == pw + Words(last.portuguese) + Words(incoming.portuguese) by {
      MergePhraseWords(last.portuguese, incoming.portuguese);
      ConcatAssociates(pw, Words(last.portuguese), Words(incoming.portuguese));
    }
    assert EnglishWords(r) == ew + Words(last.english) + Words(incoming.english) by {
      MergePhraseWords(last.english, incoming.english);
      ConcatAssociates(ew, Words(last.english), Words(incoming.english));
    }
  }

  /** The words of the blocks when the last block is replaced by `e`. */
  lemma {:induction false} WordsOfReplacedLast(entries: seq<TranslationEntry>, e: TranslationEntry)
    requires entries != []
    ensures var n := |entries| - 1;
      && PortugueseWords(entries[n := e]) == PortugueseWords(entries[..n]) + Words(e.portuguese)
      && EnglishWords(entries[n := e]) == EnglishWords(entries[..n]) + Words(e.english)
      && PortugueseWords(entries) == PortugueseWords(entries[..n]) + Words(entries[n].portuguese)
      && EnglishWords(entries) == EnglishWords(entries[..n]) + Words(entries[n].english)
  {
    var n := |entries| - 1;
    assert entries[n := e][..n] == entries[..n];
  }

  /** `GetHistoryForAnalysis`'s projection of one block: its Portuguese, else its English, trimmed, unless both are blank. */
  function AnalysisText(entries: seq<TranslationEntry>): (texts: seq<string>)
    ensures |texts| <= |entries|
    ensures forall i :: 0 <= i < |texts| ==> !IsBlank(texts[i]) && IsTrimmed(texts[i])
  {
    if entries == [] then []
    else
      var e := entries[|entries| - 1];
      var text := if !IsBlank(e.portuguese) then Trim(e.portuguese) else Trim(e.english);
      var rest := AnalysisText(entries[..|entries| - 1]);
      if IsBlank(text) then rest
      else
        assert text != [] && !IsWhiteSpace(text[0]);
        rest + [text]
  }

  /** The projection keeps the order of the blocks: it distributes over concatenation. */
  lemma {:induction false} AnalysisTextConcat(a: seq<TranslationEntry>, b: seq<TranslationEntry>)
    ensures AnalysisText(a + b) == AnalysisText(a) + AnalysisText(b)
    decreases |b|
  {
    if b == [] {
      assert a + b == a;
    } else {
      assert (a + b)[..|a + b| - 1] == a + b[..|b| - 1];
      AnalysisTextConcat(a, b[..|b| - 1]);
    }
  }

  /** A single block yields its trimmed Portuguese, else its trimmed English, else nothing. */
  lemma {:induction false} AnalysisTextOfEntry(e: TranslationEntry)
    ensures AnalysisText([e]) ==
      if !IsBlank(e.portuguese) then [Trim(e.portuguese)]
      else if !IsBlank(e.english) then [Trim(e.english)]
      else []
  {
    assert [e][..0] == [];
  }

  /**
   * The overlay's caption state: the blocks shown and analysed, each with the
   * time it was last updated.
   */
  class CaptionHistory {
    var history: seq<TranslationEntry>
    var historyTimestamps: seq<int>
    const settings: MergeSettings

    ghost predicate Valid()
      reads this
    {
      |history| == |historyTimestamps|
    }

    constructor(settings: MergeSettings)
      ensures Valid()
      ensures history == [] && historyTimestamps == [] && this.settings == settings
    {
      history := [];
      historyTimestamps := [];
      this.settings := settings;
    }

    /** `AddOrMergeHistory(incoming)` at time `now`. */
    method AddOrMergeHistory(incoming: TranslationEntry, now: int)
      requires Valid()
      modifies this
      ensures Valid()
      ensures var r := AddOrMerge(old(history), old(historyTimestamps), incoming, now, settings);
        history == r.entries && historyTimestamps == r.timestamps
    {
      if |history| == 0 {
        AppendStep(history, historyTimestamps, incoming, now, settings);
        history := history + [incoming];
        historyTimestamps := historyTimestamps + [now];
        return;
      }

      var previousTimestamp := historyTimestamps[|historyTimestamps| - 1];
      var previous := history[|history| - 1];
      if !ShouldMerge(previous.portuguese, incoming.portuguese, now - previousTimestamp, settings) {
        AppendStep(history, historyTimestamps, incoming, now, settings);
        history := history + [incoming];
        historyTimestamps := historyTimestamps + [now];
        return;
      }

      MergeStep(history, historyTimestamps, incoming, now, settings);
      history := history[|history| - 1 := MergeEntries(history[|history| - 1], incoming)];
      historyTimestamps := historyTimestamps[|historyTimestamps| - 1 := now];
    }

    /**
     * `AddTranslation` for a final result received at `now`: the result becomes
     * an entry, is added to or merged into the history, the entry's Portuguese
     * (when not blank) is shown as a subtitle with the status line saying a
     * translation arrived, and the history panel is redrawn. `None` leaves the
     * caption or the status line as it was.
     */
    method AddTranslation(
      recognitionLanguage: string, recognizedText: string, targetLanguage: string, translatedText: string, now: int)
      returns (liveCaption: Option<string>, status: Option<string>, portugueseText: seq<string>)
      requires Valid()
      modifies this
      ensures Valid()
      ensures var e := BuildEntry(recognitionLanguage, recognizedText, targetLanguage, translatedText);
        var r := AddOrMerge(old(history), old(historyTimestamps), e, now, settings);
        && history == r.entries && historyTimestamps == r.timestamps
        && liveCaption == (if IsBlank(e.portuguese) then None
                           else Some(Wrapping.JoinLines(Wrapping.LastLines(
                             Wrapping.SubtitleLines(Words(e.portuguese)), Wrapping.SubtitleMaxLines))))
        && status == (if IsBlank(e.portuguese) then None else Some(TranslationReceivedStatus))
      ensures |portugueseText| == if |history| < HistorySize then |history| else HistorySize
      ensures forall i :: 0 <= i < |portugueseText| ==>
        portugueseText[i] == history[|history| - |portugueseText| + i].portuguese
    {
      var entry := BuildEntry(recognitionLanguage, recognizedText, targetLanguage, translatedText);
      AddOrMergeHistory(entry, now);

      liveCaption, status := None, None;
      if !IsBlank(entry.portuguese) {
        var wrapped := Wrapping.WrapSubtitleCaption(entry.portuguese);
        liveCaption, status := Some(wrapped), Some(TranslationReceivedStatus);
      }

      portugueseText := UpdateHistoryText();
    }

    /** `UpdateHistoryText`: the Portuguese side of the last `HistorySize` blocks, oldest first. */
    method UpdateHistoryText() returns (portugueseText: seq<string>)
      ensures |portugueseText| == if |history| < HistorySize then |history| else HistorySize
      ensures forall i :: 0 <= i < |portugueseText| ==>
        portugueseText[i] == history[|history| - |portugueseText| + i].portuguese
    {
      var visibleCount := if |history| < HistorySize then |history| else HistorySize;
      portugueseText := [];
      if visibleCount == 0 {
        return;
      }
      var startIndex := |history| - visibleCount;
      for i := startIndex to |history|
        invariant |portugueseText| == i - startIndex
        invariant forall j :: 0 <= j < |portugueseText| ==> portugueseText[j] == history[startIndex + j].portuguese
      {
        portugueseText := portugueseText + [history[i].portuguese];
      }
    }

    /** `GetHistoryForAnalysis`: each block's text for the assistant, blanks dropped, in order. */
    function GetHistoryForAnalysis(): (texts: seq<string>)
      reads this
      ensures |texts| <= |history|
      ensures forall i :: 0 <= i < |texts| ==> !IsBlank(texts[i]) && IsTrimmed(texts[i])
    {
      AnalysisText(history)
    }
  }
}
