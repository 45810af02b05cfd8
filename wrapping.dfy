/**
 * The greedy word wrappers of the overlay window (OverlayForm.cs): `WrapCaption`
 * for the history panel (58 columns) and `WrapSubtitleCaption` for the live
 * caption (42 columns, only the last two lines kept). A wrapped text is a list
 * of lines, each line a list of words; its rendering joins the words of a line
 * with single spaces and the lines with `Environment.NewLine`. Widths are
 * measured as `string.Length` measures them, in UTF-16 code units.
 */
module Wrapping {
  import opened Text

  /** The line width of `WrapCaption`, which wraps the history-panel entries despite its name. */
  const LiveCaptionLineLength: nat := 58
  const SubtitleLineLength: nat := 42
  const SubtitleMaxLines: nat := 2
  /** `Environment.NewLine` on the Windows desktop the overlay runs on. */
  const NewLine: string := "\r\n"

  /** The words of a line joined by single spaces. */
  function LineText(line: seq<string>): string {
    if line == [] then ""
    else if |line| == 1 then line[0]
    else LineText(line[..|line| - 1]) + " " + line[|line| - 1]
  }

  /** `string.Join(Environment.NewLine, texts)`. */
  function JoinLines(texts: seq<string>): string {
    if texts == [] then ""
    else if |texts| == 1 then texts[0]
    else JoinLines(texts[..|texts| - 1]) + NewLine + texts[|texts| - 1]
  }

  /** The text of each line. */
  function Texts(lines: seq<seq<string>>): (texts: seq<string>)
    ensures |texts| == |lines|
  {
    seq(|lines|, i requires 0 <= i < |lines| => LineText(lines[i]))
  }

  /** All words of all lines, in order. */
  function Flatten(lines: seq<seq<string>>): seq<string> {
    if lines == [] then [] else Flatten(lines[..|lines| - 1]) + lines[|lines| - 1]
  }

  /** The length (`string.Length`, in UTF-16 code units) a line would have with `word` added to it. */
  function Projected(line: seq<string>, word: string): nat {
    if line == [] then Utf16Length(word) else Utf16Length(LineText(line)) + 1 + Utf16Length(word)
  }

  /**
   * One step of the greedy wrap: `word` goes on the current (last) line unless
   * that would make it longer than `width`, in which case it starts a new line.
   * With `breakWhenEmpty` an over-long word also breaks away from an empty line.
   */
  function AddWord(lines: seq<seq<string>>, word: string, width: nat, breakWhenEmpty: bool): (r: seq<seq<string>>)
    requires lines != []
    ensures r != []
  {
    var last := lines[|lines| - 1];
    if (last != [] || breakWhenEmpty) && Projected(last, word) > width then lines + [[word]]
    else lines[..|lines| - 1] + [last + [word]]
  }

  /** The greedy wrap of `words`, word by word from an empty line. */
  function GreedyLines(words: seq<string>, width: nat, breakWhenEmpty: bool): (lines: seq<seq<string>>)
    ensures lines != []
  {
    if words == [] then [[]]
    else AddWord(GreedyLines(words[..|words| - 1], width, breakWhenEmpty), words[|words| - 1], width, breakWhenEmpty)
  }

  /** Only the first line may be empty. */
  predicate LaterLinesNonEmpty(lines: seq<seq<string>>) {
    forall i :: 0 < i < |lines| ==> lines[i] != []
  }

  /** Every line of two or more words fits in `width`. */
  predicate LinesFit(lines: seq<seq<string>>, width: nat) {
    forall i :: 0 <= i < |lines| && |lines[i]| >= 2 ==> Utf16Length(LineText(lines[i])) <= width
  }

  /** Every break after a non-empty line was forced: the next word would not have fitted. */
  predicate BreaksForced(lines: seq<seq<string>>, width: nat) {
    forall i :: 0 <= i < |lines| - 1 && lines[i] != [] && lines[i + 1] != [] ==> Projected(lines[i], lines[i + 1][0]) > width
  }

  /**
   * What a greedy wrap of `words` at `width` is: the words in order; no empty
   * line except possibly the first, which is empty exactly when there are no
   * words or an over-long first word was broken away from it; every line of two
   * or more words fits; and every break was forced.
   */
  predicate IsGreedyWrap(lines: seq<seq<string>>, words: seq<string>, width: nat, breakWhenEmpty: bool) {
    && lines != []
    && Flatten(lines) == words
    && LaterLinesNonEmpty(lines)
    && (lines[0] == [] <==> words == [] || (breakWhenEmpty && Utf16Length(words[0]) > width))
    && LinesFit(lines, width)
    && BreaksForced(lines, width)
  }

  /** `GreedyLines` is a greedy wrap. */
  lemma {:induction false} GreedyLinesIsGreedyWrap(words: seq<string>, width: nat, breakWhenEmpty: bool)
    ensures IsGreedyWrap(GreedyLines(words, width, breakWhenEmpty), words, width, breakWhenEmpty)
  {
    if words != [] {
      var init, w := words[..|words| - 1], words[|words| - 1];
      GreedyLinesIsGreedyWrap(init, width, breakWhenEmpty);
      var lines := GreedyLines(init, width, breakWhenEmpty);
      assert words == init + [w];
      if (lines[|lines| - 1] != [] || breakWhenEmpty) && Projected(lines[|lines| - 1], w) > width {
        BreakKeepsGreedyWrap(lines, init, w, width, breakWhenEmpty);
      } else {
        AppendKeepsGreedyWrap(lines, init, w, width, breakWhenEmpty);
      }
    }
  }

  lemma {:induction false} FlattenSnoc(lines: seq<seq<string>>, line: seq<string>)
    ensures Flatten(lines + [line]) == Flatten(lines) + line
  {
    assert (lines + [line])[..|lines|] == lines;
  }

  lemma {:induction false} BreakKeepsGreedyWrap(
    lines: seq<seq<string>>, init: seq<string>, w: string, width: nat, breakWhenEmpty: bool)
    requires IsGreedyWrap(lines, init, width, breakWhenEmpty)
    requires (lines[|lines| - 1] != [] || breakWhenEmpty) && Projected(lines[|lines| - 1], w) > width
    ensures IsGreedyWrap(lines + [[w]], init + [w], width, breakWhenEmpty)
  {
    var r := lines + [[w]];
    FlattenSnoc(lines, [w]);
    assert r[0] == lines[0];
    if init == [] {
      assert lines == [[]] by { assert Flatten(lines[..|lines| - 1]) == [] && lines[|lines| - 1] == []; }
    } else {
      assert (init + [w])[0] == init[0];
    }
    assert LinesFit(r, width) by {
      forall i | 0 <= i < |r| && |r[i]| >= 2 ensures Utf16Length(LineText(r[i])) <= width {
        assert r[i] == lines[i];
      }
    }
    assert BreaksForced(r, width) by {
      forall i | 0 <= i < |r| - 1 && r[i] != [] ensures Projected(r[i], r[i + 1][0]) > width {
        if i + 1 < |lines| {
          assert r[i] == lines[i] && r[i + 1] == lines[i + 1];
        }
      }
    }
  }

  lemma {:induction false} AppendKeepsGreedyWrap(
    lines: seq<seq<string>>, init: seq<string>, w: string, width: nat, breakWhenEmpty: bool)
    requires IsGreedyWrap(lines, init, width, breakWhenEmpty)
    requires !((lines[|lines| - 1] != [] || breakWhenEmpty) && Projected(lines[|lines| - 1], w) > width)
    ensures IsGreedyWrap(lines[..|lines| - 1] + [lines[|lines| - 1] + [w]], init + [w], width, breakWhenEmpty)
  {
    var n := |lines|;
    var last := lines[n - 1];
    var r := lines[..n - 1] + [last + [w]];
    assert lines[..n - 1] + [last] == lines;
    FlattenSnoc(lines[..n - 1], last);
    FlattenSnoc(lines[..n - 1], last + [w]);
    AppendFirstLine(lines, init, w, width, breakWhenEmpty);
    AppendFits(lines, w, width, breakWhenEmpty);
    AppendBreaks(lines, w, width);
    assert LaterLinesNonEmpty(r) by {
      forall i | 0 < i < n ensures r[i] != [] {
        if i < n - 1 {
          assert r[i] == lines[i];
        }
      }
    }
  }

  lemma {:induction false} AppendFirstLine(
    lines: seq<seq<string>>, init: seq<string>, w: string, width: nat, breakWhenEmpty: bool)
    requires lines != [] && Flatten(lines) == init && LaterLinesNonEmpty(lines)
    requires lines[0] == [] <==> init == [] || (breakWhenEmpty && Utf16Length(init[0]) > width)
    requires !((lines[|lines| - 1] != [] || breakWhenEmpty) && Projected(lines[|lines| - 1], w) > width)
    ensures var r := lines[..|lines| - 1] + [lines[|lines| - 1] + [w]];
      r[0] == [] <==> (breakWhenEmpty && Utf16Length((init + [w])[0]) > width)
  {
    var n := |lines|;
    var last := lines[n - 1];
    var r := lines[..n - 1] + [last + [w]];
    assert lines[..n - 1] + [last] == lines;
    FlattenSnoc(lines[..n - 1], last);
    if n == 1 {
      assert r[0] == last + [w] && lines[0] == last;
      assert Flatten(lines[..n - 1]) == [] && init == last;
      if init == [] {
        assert last == [] && Projected(last, w) == Utf16Length(w);
        assert !(breakWhenEmpty && Utf16Length(w) > width);
        assert init + [w] == [w];
      } else {
        assert (init + [w])[0] == init[0];
      }
    } else {
      assert r[0] == lines[0];
      assert last != [];
      assert init != [] by { assert |init| >= |last|; }
      assert (init + [w])[0] == init[0];
    }
  }

  lemma {:induction false} AppendFits(lines: seq<seq<string>>, w: string, width: nat, breakWhenEmpty: bool)
    requires lines != [] && LinesFit(lines, width)
    requires !((lines[|lines| - 1] != [] || breakWhenEmpty) && Projected(lines[|lines| - 1], w) > width)
    ensures LinesFit(lines[..|lines| - 1] + [lines[|lines| - 1] + [w]], width)
  {
    var n := |lines|;
    var last := lines[n - 1];
    var r := lines[..n - 1] + [last + [w]];
    LineTextLength(last, w);
    forall i | 0 <= i < n && |r[i]| >= 2 ensures Utf16Length(LineText(r[i])) <= width {
      if i < n - 1 {
        assert r[i] == lines[i];
      } else {
        assert last != [];
      }
    }
  }

  lemma {:induction false} AppendBreaks(lines: seq<seq<string>>, w: string, width: nat)
    requires lines != [] && LaterLinesNonEmpty(lines) && BreaksForced(lines, width)
    ensures BreaksForced(lines[..|lines| - 1] + [lines[|lines| - 1] + [w]], width)
  {
    var n := |lines|;
    var last := lines[n - 1];
    var r := lines[..n - 1] + [last + [w]];
    forall i | 0 <= i < n - 1 && r[i] != [] ensures Projected(r[i], r[i + 1][0]) > width {
      assert r[i] == lines[i];
      if i + 1 == n - 1 {
        assert last != [];
        assert r[i + 1][0] == last[0];
      } else {
        assert r[i + 1] == lines[i + 1];
      }
    }
  }

  /** Adding a word to a line adds a space and the word to its text (just the word to an empty line). */
  lemma {:induction false} LineTextSnoc(line: seq<string>, w: string)
    ensures LineText(line + [w]) == if line == [] then w else LineText(line) + " " + w
  {
    var l := line + [w];
    assert l[..|l| - 1] == line;
    if line == [] {
      assert l == [w];
    }
  }

  /** The length of a line with `w` added is what `Projected` counts. */
  lemma {:induction false} LineTextLength(line: seq<string>, w: string)
    ensures Utf16Length(LineText(line + [w])) == Projected(line, w)
  {
    LineTextSnoc(line, w);
    if line != [] {
      Utf16LengthConcat(LineText(line) + " ", w);
      Utf16LengthConcat(LineText(line), " ");
      assert " "[..0] == [];
    }
  }

  /** Extending the last of the joined lines extends the joined text. */
  lemma {:induction false} JoinLinesExtendLast(texts: seq<string>, x: string)
    requires texts != []
    ensures JoinLines(texts[..|texts| - 1] + [texts[|texts| - 1] + x]) == JoinLines(texts) + x
  {
    var t := texts[..|texts| - 1] + [texts[|texts| - 1] + x];
    assert t[..|t| - 1] == texts[..|texts| - 1];
  }

  /** A new line adds `Environment.NewLine` and the line's text. */
  lemma {:induction false} JoinLinesSnoc(texts: seq<string>, x: string)
    requires texts != []
    ensures JoinLines(texts + [x]) == JoinLines(texts) + NewLine + x
  {
    var t := texts + [x];
    assert t[..|t| - 1] == texts;
  }

  /** The greedy wrap of one more word is one more `AddWord` step. */
  lemma {:induction false} GreedyLinesStep(words: seq<string>, i: nat, width: nat, breakWhenEmpty: bool)
    requires i < |words|
    ensures GreedyLines(words[..i + 1], width, breakWhenEmpty)
         == AddWord(GreedyLines(words[..i], width, breakWhenEmpty), words[i], width, breakWhenEmpty)
  {
    assert words[..i + 1][..i] == words[..i];
  }

  /** The texts of one more line: the old texts and that line's text. */
  lemma {:induction false} TextsSnoc(lines: seq<seq<string>>, line: seq<string>)
    ensures Texts(lines + [line]) == Texts(lines) + [LineText(line)]
  {
    var r := lines + [line];
    forall i | 0 <= i < |r| ensures Texts(r)[i] == (Texts(lines) + [LineText(line)])[i] {
      if i < |lines| {
        assert r[i] == lines[i];
      }
    }
  }

  /** Texts after a break: the old ones and the new word alone. */
  lemma {:induction false} TextsOfBreak(lines: seq<seq<string>>, w: string)
    ensures Texts(lines + [[w]]) == Texts(lines) + [w]
  {
    var r := lines + [[w]];
    forall i | 0 <= i < |r| ensures Texts(r)[i] == (Texts(lines) + [w])[i] {
      if i < |lines| {
        assert r[i] == lines[i];
      }
    }
  }

  /** Texts after a word is added to the last line. */
  lemma {:induction false} TextsOfAppend(lines: seq<seq<string>>, w: string)
    requires lines != []
    ensures var last := lines[|lines| - 1];
      Texts(lines[..|lines| - 1] + [last + [w]])
        == Texts(lines)[..|lines| - 1] + [LineText(last) + (if last == [] then w else " " + w)]
  {
    var n := |lines|;
    var last := lines[n - 1];
    var r := lines[..n - 1] + [last + [w]];
    var rhs := Texts(lines)[..n - 1] + [LineText(last + [w])];
    forall i | 0 <= i < n ensures Texts(r)[i] == rhs[i] {
      if i < n - 1 {
        assert r[i] == lines[i];
      }
    }
    assert Texts(r) == rhs;
    LineTextSnoc(last, w);
    if last == [] {
      assert LineText(last) + w == w;
    } else {
      assert LineText(last) + " " + w == LineText(last) + (" " + w);
    }
  }

  /** The rendering after a break: `Environment.NewLine` and the word. */
  lemma {:induction false} RenderOfBreak(lines: seq<seq<string>>, w: string)
    requires lines != []
    ensures JoinLines(Texts(lines + [[w]])) == JoinLines(Texts(lines)) + NewLine + w
  {
    TextsOfBreak(lines, w);
    JoinLinesSnoc(Texts(lines), w);
  }

  /** The rendering after a word is added to the last line: a space (unless the line was empty) and the word. */
  lemma {:induction false} RenderOfAppend(lines: seq<seq<string>>, w: string)
    requires lines != []
    ensures var last := lines[|lines| - 1];
      JoinLines(Texts(lines[..|lines| - 1] + [last + [w]]))
        == JoinLines(Texts(lines)) + (if last == [] then w else " " + w)
  {
    TextsOfAppend(lines, w);
    JoinLinesExtendLast(Texts(lines), if lines[|lines| - 1] == [] then w else " " + w);
  }

  /**
   * One word added to a history entry: the rendering gains a line break or a
   * space (unless the line was empty) and the word, and the last line's length
   * is the projected one.
   */
  lemma {:induction false} CaptionAddWord(lines: seq<seq<string>>, w: string, builder: string, len: nat)
    requires lines != [] && w != []
    requires builder == JoinLines(Texts(lines))
    requires len == Utf16Length(LineText(lines[|lines| - 1]))
    requires len == 0 <==> lines[|lines| - 1] == []
    ensures var next := AddWord(lines, w, LiveCaptionLineLength, true);
      var breaks := (if len == 0 then Utf16Length(w) else len + 1 + Utf16Length(w)) > LiveCaptionLineLength;
      && JoinLines(Texts(next))
        == (if breaks then builder + NewLine + w else (if len > 0 then builder + " " else builder) + w)
      && Utf16Length(LineText(next[|next| - 1])) == (if breaks then Utf16Length(w) else len + (if len > 0 then 1 else 0) + Utf16Length(w))
      && next[|next| - 1] != []
  {
    var last := lines[|lines| - 1];
    assert Projected(last, w) == (if len == 0 then Utf16Length(w) else len + 1 + Utf16Length(w));
    if Projected(last, w) > LiveCaptionLineLength {
      CaptionBreak(lines, w);
    } else {
      CaptionAppend(lines, w);
    }
  }

  /** A word that does not fit starts a new line of its own. */
  lemma {:induction false} CaptionBreak(lines: seq<seq<string>>, w: string)
    requires lines != [] && Projected(lines[|lines| - 1], w) > LiveCaptionLineLength
    ensures var next := AddWord(lines, w, LiveCaptionLineLength, true);
      && JoinLines(Texts(next)) == JoinLines(Texts(lines)) + NewLine + w
      && next[|next| - 1] == [w] && LineText([w]) == w
  {
    RenderOfBreak(lines, w);
  }

  /** A word that fits joins the last line, after a space unless the line was empty. */
  lemma {:induction false} CaptionAppend(lines: seq<seq<string>>, w: string)
    requires lines != [] && Projected(lines[|lines| - 1], w) <= LiveCaptionLineLength
    ensures var last := lines[|lines| - 1];
      var next := AddWord(lines, w, LiveCaptionLineLength, true);
      && JoinLines(Texts(next)) == JoinLines(Texts(lines)) + (if last == [] then w else " " + w)
      && next[|next| - 1] == last + [w]
      && Utf16Length(LineText(next[|next| - 1])) == Projected(last, w)
  {
    var last := lines[|lines| - 1];
    RenderOfAppend(lines, w);
    LineTextLength(last, w);
  }

  /**
   * One iteration of the `WrapCaption` loop: the text built so far and the
   * length of its last line stay those of the greedy wrap of one more word.
   */
  lemma {:induction false} CaptionStep(words: seq<string>, i: nat, lines: seq<seq<string>>, builder: string, len: nat)
    requires i < |words| && words[i] != []
    requires lines == GreedyLines(words[..i], LiveCaptionLineLength, true)
    requires builder == JoinLines(Texts(lines))
    requires len == Utf16Length(LineText(lines[|lines| - 1]))
    requires len == 0 <==> lines[|lines| - 1] == []
    ensures var w := words[i];
      var next := GreedyLines(words[..i + 1], LiveCaptionLineLength, true);
      var breaks := (if len == 0 then Utf16Length(w) else len + 1 + Utf16Length(w)) > LiveCaptionLineLength;
      && JoinLines(Texts(next))
        == (if breaks then builder + NewLine + w else (if len > 0 then builder + " " else builder) + w)
      && Utf16Length(LineText(next[|next| - 1])) == (if breaks then Utf16Length(w) else len + (if len > 0 then 1 else 0) + Utf16Length(w))
      && next[|next| - 1] != []
  {
    GreedyLinesStep(words, i, LiveCaptionLineLength, true);
    CaptionAddWord(lines, words[i], builder, len);
  }

  /**
   * What `WrapSubtitleCaption` has built after `i` words: the finished lines
   * and the line being built of the greedy wrap of those words.
   */
  ghost predicate SubtitleProgress(words: seq<string>, i: nat, lines: seq<string>, cur: string)
    requires i <= |words|
  {
    var groups := GreedyLines(words[..i], SubtitleLineLength, false);
    && lines == Texts(groups[..|groups| - 1])
    && cur == LineText(groups[|groups| - 1])
    && (|cur| == 0 <==> groups[|groups| - 1] == [])
  }

  /** Before the first word nothing is built. */
  lemma SubtitleStart(words: seq<string>)
    ensures SubtitleProgress(words, 0, [], "")
  {
    assert words[..0] == [];
  }

  /**
   * One iteration of the `WrapSubtitleCaption` loop, for a word that does not
   * fit the non-empty line being built: that line is finished and the word
   * starts the next one.
   */
  lemma {:induction false} SubtitleBreakStep(words: seq<string>, i: nat, lines: seq<string>, cur: string)
    requires i < |words| && words[i] != [] && SubtitleProgress(words, i, lines, cur)
    requires |cur| > 0 && Utf16Length(cur) + 1 + Utf16Length(words[i]) > SubtitleLineLength
    ensures SubtitleProgress(words, i + 1, lines + [cur], "" + words[i])
  {
    var groups := GreedyLines(words[..i], SubtitleLineLength, false);
    GreedyLinesStep(words, i, SubtitleLineLength, false);
    SubtitleBreak(groups, words[i]);
    assert "" + words[i] == words[i];
  }

  /** One iteration for a word that fits the non-empty line being built: a space and the word join it. */
  lemma {:induction false} SubtitleJoinStep(words: seq<string>, i: nat, lines: seq<string>, cur: string)
    requires i < |words| && words[i] != [] && SubtitleProgress(words, i, lines, cur)
    requires |cur| > 0 && Utf16Length(cur) + 1 + Utf16Length(words[i]) <= SubtitleLineLength
    ensures SubtitleProgress(words, i + 1, lines, cur + " " + words[i])
  {
    var groups := GreedyLines(words[..i], SubtitleLineLength, false);
    GreedyLinesStep(words, i, SubtitleLineLength, false);
    SubtitleAppend(groups, words[i]);
  }

  /** One iteration on an empty line: the word starts it, whatever its length. */
  lemma {:induction false} SubtitleFirstStep(words: seq<string>, i: nat, lines: seq<string>, cur: string)
    requires i < |words| && words[i] != [] && SubtitleProgress(words, i, lines, cur)
    requires |cur| == 0
    ensures SubtitleProgress(words, i + 1, lines, cur + words[i])
  {
    var groups := GreedyLines(words[..i], SubtitleLineLength, false);
    GreedyLinesStep(words, i, SubtitleLineLength, false);
    SubtitleAppend(groups, words[i]);
    assert cur == [];
    assert cur + words[i] == words[i];
  }

  /** A word that does not fit a non-empty line closes that line and starts the next one. */
  lemma {:induction false} SubtitleBreak(groups: seq<seq<string>>, w: string)
    requires groups != [] && groups[|groups| - 1] != []
    requires Projected(groups[|groups| - 1], w) > SubtitleLineLength
    ensures var next := AddWord(groups, w, SubtitleLineLength, false);
      && Texts(next[..|next| - 1]) == Texts(groups[..|groups| - 1]) + [LineText(groups[|groups| - 1])]
      && next[|next| - 1] == [w] && LineText([w]) == w
  {
    var last := groups[|groups| - 1];
    var next := AddWord(groups, w, SubtitleLineLength, false);
    assert next[..|next| - 1] == groups;
    assert groups == groups[..|groups| - 1] + [last];
    TextsSnoc(groups[..|groups| - 1], last);
  }

  /** A word that fits, or meets an empty line, joins the line being built. */
  lemma {:induction false} SubtitleAppend(groups: seq<seq<string>>, w: string)
    requires groups != []
    requires groups[|groups| - 1] == [] || Projected(groups[|groups| - 1], w) <= SubtitleLineLength
    ensures var last := groups[|groups| - 1];
      var next := AddWord(groups, w, SubtitleLineLength, false);
      && next[..|next| - 1] == groups[..|groups| - 1]
      && next[|next| - 1] == last + [w]
      && LineText(last + [w]) == if last == [] then w else LineText(last) + " " + w
  {
    var last := groups[|groups| - 1];
    var next := AddWord(groups, w, SubtitleLineLength, false);
    assert next[..|next| - 1] == groups[..|groups| - 1];
    LineTextSnoc(last, w);
  }

  /** After the last word, the line being built is not empty and completes the greedy wrap. */
  lemma {:induction false} SubtitleFinish(words: seq<string>, lines: seq<string>, cur: string)
    requires words != [] && SubtitleProgress(words, |words|, lines, cur)
    ensures |cur| > 0 && lines + [cur] == SubtitleLines(words)
  {
    assert words[..|words|] == words;
    var groups := GreedyLines(words, SubtitleLineLength, false);
    var last := groups[|groups| - 1];
    assert last != [];
    assert groups == groups[..|groups| - 1] + [last];
    TextsSnoc(groups[..|groups| - 1], last);
  }

  /** The lines of `WrapSubtitleCaption` before the last-two cut: none for a text without words. */
  function SubtitleLines(words: seq<string>): seq<string> {
    if words == [] then [] else Texts(GreedyLines(words, SubtitleLineLength, false))
  }

  /** The last `n` of `lines`, or all of them when there are no more than `n` (`Skip(Count - n)`). */
  function LastLines(lines: seq<string>, n: nat): (r: seq<string>)
    ensures |r| <= n && |r| <= |lines|
    ensures r == lines[|lines| - |r|..]
    ensures |r| == if |lines| <= n then |lines| else n
  {
    if |lines| <= n then lines else lines[|lines| - n..]
  }

  /** Without words a history entry wraps to the empty string. */
  lemma NoWordsNoCaption(words: seq<string>)
    requires words == []
    ensures JoinLines(Texts(GreedyLines(words, LiveCaptionLineLength, true))) == ""
  {
    assert Texts([[]]) == [LineText([])];
  }

  /** Without words the subtitle is the empty string. */
  lemma NoWordsNoSubtitle(words: seq<string>)
    requires words == []
    ensures JoinLines(LastLines(SubtitleLines(words), SubtitleMaxLines)) == ""
  {
    assert SubtitleLines(words) == [];
  }

  /** The two cases of `LastLines`, as `WrapSubtitleCaption` tests them. */
  lemma LastLinesCases(lines: seq<string>, n: nat)
    ensures |lines| <= n ==> LastLines(lines, n) == lines
    ensures |lines| > n ==> LastLines(lines, n) == lines[|lines| - n..]
  {
  }

  /**
   * `WrapCaption`: the words of `text` wrapped greedily at 58 columns; a blank
   * text gives the empty string.
   */
  method WrapCaption(text: string) returns (wrapped: string)
    ensures wrapped == JoinLines(Texts(GreedyLines(Words(text), LiveCaptionLineLength, true)))
  {
    if IsBlank(text) {
      assert Words(text) == [];
      NoWordsNoCaption(Words(text));
      return "";
    }

    var words := Words(text);
    if |words| == 0 {
      NoWordsNoCaption(words);
      return "";
    }

    var builder := "";
    var currentLineLength := 0;
    ghost var lines: seq<seq<string>> := [[]];
    for i := 0 to |words|
      invariant lines == GreedyLines(words[..i], LiveCaptionLineLength, true)
      invariant builder == JoinLines(Texts(lines))
      invariant currentLineLength == Utf16Length(LineText(lines[|lines| - 1]))
      invariant currentLineLength == 0 <==> lines[|lines| - 1] == []
    {
      var word := words[i];
      CaptionStep(words, i, lines, builder, currentLineLength);
      lines := GreedyLines(words[..i + 1], LiveCaptionLineLength, true);
      var projectedLength := if currentLineLength == 0 then Utf16Length(word) else currentLineLength + 1 + Utf16Length(word);
      if projectedLength > LiveCaptionLineLength {
        builder := builder + NewLine + word;
        currentLineLength := Utf16Length(word);
        continue;
      }

      if currentLineLength > 0 {
        builder := builder + " ";
        currentLineLength := currentLineLength + 1;
      }

      builder := builder + word;
      currentLineLength := currentLineLength + Utf16Length(word);
    }
    assert words[..|words|] == words;
    wrapped := builder;
  }

  /**
   * `WrapSubtitleCaption`: the words of `text` wrapped greedily at 42 columns,
   * of which only the last two lines are kept; a blank text gives the empty
   * string.
   */
  method WrapSubtitleCaption(text: string) returns (wrapped: string)
    ensures wrapped == JoinLines(LastLines(SubtitleLines(Words(text)), SubtitleMaxLines))
  {
    if IsBlank(text) {
      assert Words(text) == [];
      NoWordsNoSubtitle(Words(text));
      return "";
    }

    var words := Words(text);
    if |words| == 0 {
      NoWordsNoSubtitle(words);
      return "";
    }

    var lines: seq<string> := [];
    var currentLine := "";
    SubtitleStart(words);
    for i := 0 to |words|
      invariant SubtitleProgress(words, i, lines, currentLine)
    {
      ghost var previousLines, previousLine := lines, currentLine;
      var word := words[i];
      var projectedLength := if |currentLine| == 0 then Utf16Length(word) else Utf16Length(currentLine) + 1 + Utf16Length(word);

      if projectedLength > SubtitleLineLength && |currentLine| > 0 {
        lines := lines + [currentLine];
        currentLine := "";
      }

      if |currentLine| > 0 {
        currentLine := currentLine + " ";
      }

      currentLine := currentLine + word;

      if |previousLine| == 0 {
        SubtitleFirstStep(words, i, previousLines, previousLine);
      } else if projectedLength > SubtitleLineLength {
        SubtitleBreakStep(words, i, previousLines, previousLine);
      } else {
        SubtitleJoinStep(words, i, previousLines, previousLine);
      }
    }
    SubtitleFinish(words, lines, currentLine);

    if |currentLine| > 0 {
      lines := lines + [currentLine];
    }

    LastLinesCases(lines, SubtitleMaxLines);
    if |lines| <= SubtitleMaxLines {
      return JoinLines(lines);
    }

    return JoinLines(lines[|lines| - SubtitleMaxLines..]);
  }

  /** The live caption is blank exactly when the text is, and never shows more than two lines. */
  lemma {:induction false} SubtitleShape(text: string)
    ensures |LastLines(SubtitleLines(Words(text)), SubtitleMaxLines)| <= SubtitleMaxLines
    ensures IsBlank(text) ==> SubtitleLines(Words(text)) == []
    ensures !IsBlank(text) ==> |LastLines(SubtitleLines(Words(text)), SubtitleMaxLines)| >= 1
  {
    if !IsBlank(text) {
      var t := Trim(text);
      assert t != [] && t[0] != ' ';
      assert Words(text) != [];
    } else {
      assert Trim(text) == [];
    }
  }
}
