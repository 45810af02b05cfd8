# Real-time translation overlay: verified model of its core logic

This project models the deterministic core of a Windows desktop tool. The tool
listens to a microphone or to the PC's audio output. It sends the audio to a
speech translation service, which works English to Portuguese or Portuguese to
English, and shows the result in an always-on-top caption overlay. The model
covers the logic between the speech service and the widgets:

- **Caption history engine** (`Captions`, `Wrapping`, `AudioDevices`).
  - Each final result becomes an English/Portuguese entry.
  - A result either continues the last caption block or starts a new one. The
    choice depends on punctuation, the pause since the previous block, its
    length, a connector word and letter case.
  - The parallel `history` / `historyTimestamps` lists are updated in place.
  - The history panel shows the last six blocks. The assistant gets a projection
    that prefers Portuguese.
  - Two greedy word wrappers lay out the captions: `WrapCaption` wraps each
    history-panel entry at 58 columns, and the live caption is the 42-column
    subtitle wrap with only the last two lines kept (`WrapSubtitleCaption`).
    Widths and the short-continuation rule count UTF-16 code units, as
    `string.Length` does (`Text.Utf16Length`).
  - The audio-source combo box is filled with `capture:` / `loopback:` device ids.
- **Recognition events and device audio** (`Recognition`, `Pcm`).
  - The status line that announces the audio source.
  - The parsing of the selected device id.
  - The partial-result stabiliser: a 450 ms rate limit, duplicates dropped, and
    only strictly longer case-insensitive extensions accepted.
  - The final-result filter.
  - The conversion of captured blocks (16/24/32-bit integer PCM or 32-bit float,
    any channel count) into 16-bit little-endian mono.
- **Configuration** (`TranslationEnvironment`, `SpeechEnvironment`,
  `EnvironmentLoader`, `Env`, `IntParse`).
  - The choice of provider, key, region and endpoint from the process
    environment.
  - The mapping from translation mode to language tags.
  - The `.env` line parser with its `Unquote`.
  - `int.TryParse` for the pause overrides.

Shared text helpers live in `Text`: the .NET whitespace set, `Trim`,
`Split(' ', RemoveEmptyEntries)`, ordinal ignore-case comparison and
`char.IsLower` over Latin-1. The `Option` type lives in `Wrappers`.

Modelling conventions:

- Time is an integer number of milliseconds passed in as `now`. A missing
  previous partial (`DateTimeOffset.MinValue`) is `None`.
- The process environment is a `map<string, string>`. A nullable string is an
  `Option<string>`.
- Audio samples are exact reals, not 32-bit floats.
- The objects that change state are classes whose methods are proved against
  specification functions:
  - `Captions.CaptionHistory` (the two history lists);
  - `AudioDevices.AudioSourcePanel` (the options list and the combo box);
  - `Recognition.RecognitionSession` (the variables the handlers capture);
  - `Pcm.DeviceAudioBridge` (the push stream).

Points where the code behaves differently from what one might expect:

- The caption history is never evicted. Only the view of the last six blocks
  is bounded.
- A `NoMatch` result only shows the waiting status. It does not reset the
  partial stabiliser.
- The "Ouvindo..." status for a blank candidate can never be shown. A candidate
  is only formed from a non-blank recognised text, and the candidate is either
  that text or a non-blank translation, so it is never blank
  (`Recognition.PartialCandidate`).
- `WrapCaption` starts its output with a line break when the first word is
  longer than 58 UTF-16 code units. The check for an over-long word does not look at
  whether the line is empty.

## Model

| member | source | states |
|---|---|---|
| Captions.ReadIntFromEnv | OverlayForm.cs:500-509 | a missing variable gives the default; otherwise the result is the default or a positive value that `int.TryParse` read from the variable, and every positive parsed value is returned |
| Captions.ReadIntFromEnvOverride | OverlayForm.cs:500-509 | a positive override written in decimal is exactly the value read back |
| Captions.LoadMergeSettings | OverlayForm.cs:36-39 | both pauses are positive, and each falls back to 1000 ms / 1500 ms when its variable is unset |
| Captions.LanguageSidesExclusive | OverlayForm.cs:741-749 | no language tag is both English (`en…`) and Portuguese (`pt…`) |
| Captions.ModeTagsOnOppositeSides | Services/TranslationEnvironment.cs:81-89 | in each mode the recognition tag and the target tag fall on opposite English/Portuguese sides |
| Captions.BuildEntry | OverlayForm.cs:534-575 | each side is the translated text if the target is that language, else the recognised text if the recognition is, with a blank English side back-filled by the translation and a blank Portuguese side by the recognised text |
| Captions.BuildEntryForMode | OverlayForm.cs:534-575 | English to Portuguese puts the recognised text on the English side and the translation on the Portuguese side (with back-filling); the other mode the reverse |
| Captions.FirstWord | OverlayForm.cs:491 | for a text that does not start with a space, the first word is everything before the first space (all of it when there is none) |
| Captions.ShouldMergeRules | OverlayForm.cs:457-498 | no merge for blank texts or a previous text closing a sentence; then no merge at or past the new-block pause, a merge at or under the quick pause, and in between a merge exactly for a current text of at most 45 UTF-16 code units, a connector first word or a lowercase first letter |
| Captions.ShouldMergeAntitone | OverlayForm.cs:476-497 | a text that merges after a longer pause also merges after a shorter one |
| Captions.MergePhraseShape | OverlayForm.cs:511-532 | the merged text is trimmed, empty only when both are blank, begins with the trimmed previous text and ends with the trimmed current text; when both are non-blank it is one character longer than the two, that character being a space right after the previous text, unless the previous text ends in `-`, when it is exactly the two glued |
| Captions.MergePhraseWords | OverlayForm.cs:511-532 | without a trailing hyphen, merging keeps every word of both texts, in order |
| Captions.AddOrMergeShape | OverlayForm.cs:431-455 | the lists stay parallel, and the outcome is an append of the entry with `now`, or a replacement of only the last entry by the merged one and the last time by `now` |
| Captions.AppendStep | OverlayForm.cs:435-448 | with an empty history or a block that does not continue, the entry and `now` are appended |
| Captions.MergeStep | OverlayForm.cs:451-454 | a continuing block replaces the last entry by both sides merged and the last time stamp by `now`, and nothing else |
| Captions.AddOrMergeKeepsWords | OverlayForm.cs:431-455 | without trailing hyphens, the words of all blocks after the update are the old words followed by the incoming entry's words, on both sides |
| Captions.AnalysisText | OverlayForm.cs:333-338 | never longer than the history, and every text is trimmed and non-blank |
| Captions.AnalysisTextConcat | OverlayForm.cs:333-338 | the projection keeps block order: it distributes over concatenation |
| Captions.AnalysisTextOfEntry | OverlayForm.cs:333-338 | a block yields its trimmed Portuguese text, else its trimmed English text, else nothing |
| Captions.CaptionHistory.constructor | OverlayForm.cs:30-31 | the history and its time stamps start empty |
| Captions.CaptionHistory.AddOrMergeHistory | OverlayForm.cs:431-455 | the new lists are the append-or-merge of the old ones with the entry at `now`; the lists stay parallel |
| Captions.CaptionHistory.AddTranslation | OverlayForm.cs:296-319 | the entry built from the result is added or merged; when its Portuguese side is not blank the live caption shows that side's two-line 42-column subtitle wrap and the status becomes `Tradução recebida.`, otherwise both are left alone; the panel shows the new last six Portuguese texts |
| Captions.CaptionHistory.UpdateHistoryText | OverlayForm.cs:411-429 | the panel shows the Portuguese side of exactly the last `min(count, 6)` blocks, oldest first |
| Captions.CaptionHistory.GetHistoryForAnalysis | OverlayForm.cs:321-339 | the assistant gets at most one text per block, each trimmed and non-blank; block by block (`Captions.AnalysisTextOfEntry`, `Captions.AnalysisTextConcat`) it is the Portuguese side, else the English side, in history order |
| Wrapping.GreedyLinesIsGreedyWrap | OverlayForm.cs:637-656 | the greedy lines hold the words in order; only the first line may be empty; every line of two or more words fits the width; every break was forced by the next word not fitting |
| Wrapping.LineTextLength | OverlayForm.cs:638 | appending a word to a line makes the line's UTF-16 length the projected length the loop computes: the word alone on an empty line, else the line, a space and the word |
| Wrapping.WrapCaption | OverlayForm.cs:621-659 | the result is the greedy 58-column wrap of the words of the text, lines joined by `Environment.NewLine`, with an over-long first word preceded by a line break |
| Wrapping.WrapSubtitleCaption | OverlayForm.cs:681-728 | the result is the last two lines of the greedy 42-column wrap (never breaking before the first word), joined by `Environment.NewLine` |
| Wrapping.SubtitleShape | OverlayForm.cs:717-727 | the subtitle never has more than two lines, has none for a blank text and at least one otherwise |
| Wrapping.LastLines | OverlayForm.cs:722-727 | the result is the suffix of the lines of length `min(count, n)` |
| AudioDevices.NameLeqTotal | OverlayForm.cs:380 | the ignore-case ordinal name order relates every two names |
| AudioDevices.NameLeqIsOrdinal | OverlayForm.cs:380 | the name order compares the case-folded names by their UTF-16 code units, a proper prefix first, as `StringComparer.OrdinalIgnoreCase` does |
| AudioDevices.FullwidthAfterEmoji | OverlayForm.cs:380 | a name starting with U+1F600 (a surrogate pair) sorts before one starting with U+FF21, as code-unit order puts it |
| Text.CodeUnitsOrder | OverlayForm.cs:380 | two different characters' UTF-16 code units, whatever follows them, compare in the order of their ordinal keys (U+E000..U+FFFF after every supplementary character) |
| AudioDevices.NameLeqTransitive | OverlayForm.cs:380 | the ignore-case ordinal name order is transitive |
| AudioDevices.OrderByName | OverlayForm.cs:378-381 | the endpoints come out sorted by name in ignore-case UTF-16 code-unit order and as a permutation of the input |
| AudioDevices.EnumeratedEndpoints | OverlayForm.cs:375-401 | a failed capture enumeration leaves both groups empty; a failed render enumeration after a successful capture one leaves only the render group empty; when both succeed each group is its endpoints ordered by name |
| AudioDevices.AudioInputOptionsShape | OverlayForm.cs:373-396 | the list is the default microphone, then one `Entrada: ` entry with id `capture:`+id per capture endpoint, then one `Saída (captura): ` entry with id `loopback:`+id per render endpoint, each group in name order |
| AudioDevices.AudioInputOptionsCount | OverlayForm.cs:373-396 | with both enumerations successful every endpoint gets exactly one entry after the default |
| AudioDevices.OnlyFirstOptionIsDefault | OverlayForm.cs:373-396 | only the first entry has no device id |
| AudioDevices.AudioSourcePanel.constructor | OverlayForm.cs:29 | no options, no items, no selection |
| AudioDevices.AudioSourcePanel.LoadAudioInputOptions | OverlayForm.cs:368-409 | the options become the full list for the enumerated endpoints, the combo items their display names in order, and the selection the first entry |
| AudioDevices.AudioSourcePanel.AddDeviceOptions | OverlayForm.cs:383-396 | one entry per endpoint is appended in order; items and selection are untouched |
| AudioDevices.AudioSourcePanel.AddComboItems | OverlayForm.cs:403-406 | the items become the display names of the options, in order |
| AudioDevices.AudioSourcePanel.GetSelectedAudioDeviceId | OverlayForm.cs:357-366 | no id for a selection outside the list, else the selected entry's id |
| Recognition.SourceStatus | Services/AzureSpeechRealTimeTranslator.cs:36-40 | the default-input message for a missing or blank id, the PC-output message for an id starting with `loopback:` in any case, the selected-input message otherwise |
| Recognition.CreateSelectedDeviceBridge | Services/AzureSpeechRealTimeTranslator.cs:171-193 | no bridge for a missing or blank id or one without a `capture:` or `loopback:` prefix (any case); with a prefix (`loopback:` checked first), a bridge exactly when the remainder is non-blank, on that remainder, recorded through loopback exactly for the `loopback:` prefix |
| Recognition.BridgeOfBuiltId | Services/AzureSpeechRealTimeTranslator.cs:171-193 | parsing inverts the ids the combo box builds: `capture:`+id and `loopback:`+id give back the id and its kind |
| Recognition.BridgeOfBlankDeviceId | Services/AzureSpeechRealTimeTranslator.cs:185-190 | a blank device id after a prefix gives no bridge |
| Recognition.BridgeOfListedOption | Services/AzureSpeechRealTimeTranslator.cs:171-193 | every option of the combo box opens the device it lists (with loopback exactly for the output entries), except the default entry and any listed device whose id is blank |
| Recognition.StatusAgreesWithBridge | Services/AzureSpeechRealTimeTranslator.cs:36-40 | whenever a bridge opens, the status names the PC output exactly when the bridge records through loopback |
| Recognition.LoopbackStatusWithoutBridge | Services/AzureSpeechRealTimeTranslator.cs:38 | the bare id `loopback:` announces the PC output but opens no bridge |
| Recognition.PartialCandidate | Services/AzureSpeechRealTimeTranslator.cs:58-63 | a candidate exists exactly when the recognised text is not blank; it is the non-blank translation if there is one, else the recognised text, and never blank |
| Recognition.OnRecognizing | Services/AzureSpeechRealTimeTranslator.cs:56-98 | a status is shown exactly when a candidate exists, 450 ms have passed since the last shown one, and it differs from, extends ignoring case and is longer than the last shown text; then the state becomes that text and `now`, otherwise the state is unchanged |
| Recognition.AcceptsPartialUtf16 | Services/AzureSpeechRealTimeTranslator.cs:82-92 | after the prefix check, comparing lengths in UTF-16 code units, as `string.Length` does, accepts exactly the candidates the character comparison accepts |
| Recognition.ShownPartialExtendsPrevious | Services/AzureSpeechRealTimeTranslator.cs:71-96 | a shown partial is strictly longer than the previous one, starts with it ignoring case, and comes at least 450 ms after it |
| Recognition.OnRecognized | Services/AzureSpeechRealTimeTranslator.cs:100-121 | a result is forwarded exactly for translated speech with a non-blank target translation, unchanged, clearing the last partial text but not its time; `NoMatch` shows only the waiting status; nothing else changes |
| Recognition.LastShownTimeIsLatest | Services/AzureSpeechRealTimeTranslator.cs:71-95 | in a spaced session the time the stabiliser remembers is that of the latest shown partial |
| Recognition.SessionShowsStablePartials | Services/AzureSpeechRealTimeTranslator.cs:56-121 | over any sequence of events the shown partials are at least 450 ms apart (across forwarded results too), each one shown right after another extends it ignoring case and is longer, and the stabiliser's state is what the notes determine |
| Recognition.StepExtendsNotes | Services/AzureSpeechRealTimeTranslator.cs:56-121 | one event that shows or forwards something keeps the session properties |
| Recognition.RecognitionSession.constructor | Services/AzureSpeechRealTimeTranslator.cs:29-51 | the session takes the mode's language tags and starts with no partial shown |
| Recognition.RecognitionSession.HandleRecognizing | Services/AzureSpeechRealTimeTranslator.cs:56-98 | the captured variables and the status move as `OnRecognizing` says |
| Recognition.RecognitionSession.HandleRecognized | Services/AzureSpeechRealTimeTranslator.cs:100-121 | the captured variables, the forwarded result and the status move as `OnRecognized` says |
| Pcm.Int16 | Services/AzureSpeechRealTimeTranslator.cs:298 | the value lies in the 16-bit range, and its two's complement bytes are the given low and high bytes |
| Pcm.Int32 | Services/AzureSpeechRealTimeTranslator.cs:311 | the value lies in the 32-bit range, is the signed reading of the four bytes, and its base-256 digits from the lowest are exactly `b0`, `b1`, `b2`, `b3` (two's complement, low byte first) |
| Pcm.Int24SignExtends | Services/AzureSpeechRealTimeTranslator.cs:304-305 | the shifts give the 24-bit two's complement value of the three bytes, low byte first, within `[-2^23, 2^23)` |
| Pcm.ReadSampleAsFloat | Services/AzureSpeechRealTimeTranslator.cs:286-316 | an unsupported encoding or width reads as 0; every integer PCM sample lies in `[-1, 1)` |
| Pcm.Clamp | Services/AzureSpeechRealTimeTranslator.cs:277 | the result is in `[-1, 1]`, equal to the input inside it and to the nearer bound outside it |
| Pcm.Truncate | Services/AzureSpeechRealTimeTranslator.cs:278 | the cast keeps the integer part, rounding toward zero |
| Pcm.Quantize | Services/AzureSpeechRealTimeTranslator.cs:278 | a clamped value scales into `[-32767, 32767]` with the same sign, truncated toward zero |
| Pcm.FrameMono | Services/AzureSpeechRealTimeTranslator.cs:268-277 | the mixed frame lies in `[-1, 1]` |
| Pcm.MonoFrame | Services/AzureSpeechRealTimeTranslator.cs:268-278 | a one-channel frame is its sample, clamped and cast |
| Pcm.BytesRoundTrip | Services/AzureSpeechRealTimeTranslator.cs:279-280 | the two bytes written for a 16-bit value read back, low byte first, as that value |
| Pcm.FrameCountZero | Services/AzureSpeechRealTimeTranslator.cs:256-261 | a block holds no whole frame exactly when it is shorter than one frame |
| Pcm.PcmBytes | Services/AzureSpeechRealTimeTranslator.cs:263-281 | the output has two bytes per frame |
| Pcm.PcmBytesDecode | Services/AzureSpeechRealTimeTranslator.cs:279-280 | byte pair `i` of the output reads back, little-endian, as frame `i`'s 16-bit value |
| Pcm.ConvertedShape | Services/AzureSpeechRealTimeTranslator.cs:249-283 | nothing is written exactly for an empty block or one shorter than a frame; otherwise exactly `2 * frameCount` bytes, pair `i` reading back as frame `i`'s mixed value, within `[-32767, 32767]` |
| Pcm.DeviceAudioBridge.constructor | Services/AzureSpeechRealTimeTranslator.cs:205-211 | the bridge keeps the capture format and starts with an empty stream |
| Pcm.DeviceAudioBridge.OnDataAvailable | Services/AzureSpeechRealTimeTranslator.cs:247-284 | the stream grows by exactly the converted block, or not at all when nothing is converted |
| Pcm.DeviceAudioBridge.MixFrame | Services/AzureSpeechRealTimeTranslator.cs:268-278 | the channel loop, averaging, clamp and cast give the frame's 16-bit value |
| PcmExamples.HalfScaleExample | Services/AzureSpeechRealTimeTranslator.cs:302-307 | the 24-bit sample `00 00 40` reads as 0.5, quantises to 16383 and is written as `FF 3F` |
| PcmExamples.Binary32Examples | Services/AzureSpeechRealTimeTranslator.cs:291-294 | the bit patterns of 1.0, -0.5 and 8388609.0 decode to those values |
| TranslationEnvironment.ParseProvider | Services/TranslationEnvironment.cs:91-100 | OpenAI exactly for `openai` or `open-ai` in any letter case, Azure otherwise |
| TranslationEnvironment.FirstNonEmpty | Services/TranslationEnvironment.cs:102-113 | none exactly when every argument is missing or blank; otherwise a non-blank argument, the first such one |
| TranslationEnvironment.TryCreateFromEnvironment | Services/TranslationEnvironment.cs:33-79 | success exactly when an environment is returned and exactly when the error message is empty; a successful environment has a non-blank key |
| TranslationEnvironment.ProviderSelection | Services/TranslationEnvironment.cs:35-38 | the provider is OpenAI exactly when `TRANSLATION_PROVIDER` names it, and an unset variable means Azure |
| TranslationEnvironment.AzureConfiguration | Services/TranslationEnvironment.cs:38-58 | Azure succeeds exactly when one of the three key variables and one of the two region variables are non-blank; a non-blank `AZURE_SPEECH_KEY` / `AZURE_SPEECH_REGION` is the one used, and there is no endpoint |
| TranslationEnvironment.OpenAiConfiguration | Services/TranslationEnvironment.cs:61-78 | OpenAI succeeds exactly when `OPENAI_API_KEY` or `API_KEY` is non-blank; the endpoint is `OPENAI_ENDPOINT` if non-blank, else the public API, and there is no region |
| SpeechEnvironment.SpeechKey | Services/SpeechEnvironment.cs:19-23 | `SPEECH_KEY` when it is non-blank, else `AZURE_SUBSCRIPTION_KEY` |
| SpeechEnvironment.TryCreateFromEnvironment | Services/SpeechEnvironment.cs:17-37 | success exactly when the chosen key and `SPEECH_REGION` are non-blank, and then the fields are those values with an empty message; failure gives no environment and a non-empty message |
| SpeechEnvironment.SameLanguageMapping | Services/SpeechEnvironment.cs:39-47 | both configurations map each mode to the same recognition and target tags |
| Env.SetVariable | Configuration/EnvironmentLoader.cs:40 | an empty value removes the variable, any other sets it, and other variables are unchanged |
| EnvironmentLoader.Unquote | Configuration/EnvironmentLoader.cs:81-97 | exactly one matching pair of `"` or `'` is removed from a value of length two or more; anything else is unchanged |
| EnvironmentLoader.UnquoteQuoted | Configuration/EnvironmentLoader.cs:81-97 | quoting a value with either quote and unquoting it gives the value back |
| EnvironmentLoader.ParseLineCases | Configuration/EnvironmentLoader.cs:19-35 | blank lines, `#` lines and lines whose trimmed form has no `=` or starts with one assign nothing; every assignment has a trimmed, non-blank key without `=`, so the blank-key check never fires |
| EnvironmentLoader.ParseSplitLine | Configuration/EnvironmentLoader.cs:25-38 | a trimmed line whose first `=` is neither first nor absent assigns the trimmed text before it the trimmed, unquoted text after it |
| EnvironmentLoader.LoadDotEnv | Configuration/EnvironmentLoader.cs:17-41 | after the loop every variable holds its last assignment in the file, or its earlier value when no line assigns it |
| EnvironmentLoader.LastAssignmentWins | Configuration/EnvironmentLoader.cs:17-41 | applying the lines in file order leaves each variable with the value of the last line that assigns it |
| EnvironmentLoader.ParseFormattedLine | Configuration/EnvironmentLoader.cs:25-38 | a line written as `key="value"` reads back as that key and value |
| IntParse.ParseInt32 | OverlayForm.cs:503 | a parsed value lies in the 32-bit range, and a missing string does not parse |
| IntParse.ParseShowRoundTrip | OverlayForm.cs:503 | the decimal text of any 32-bit integer parses back to it |

## Left out

- Rendering is not modelled: the WinForms layout, the history box's join,
  newest-entry highlight and fonts, and the live caption's selection,
  alignment and colour. `AddTranslation` and `UpdateHistoryText` return the
  texts they would hand to those widgets and to the status line.
- The `InvokeRequired` / `BeginInvoke` / `Invoke` marshalling and the
  `IsDisposed` early returns are not modelled. They concern the UI thread, not
  the logic.
- The speech service is not modelled: `GetOrCreateConfig`, `CreateAudioConfig`,
  the recogniser's start and stop, the cancellation loop, the `Canceled`
  handler and the exception-to-status wrapping. Recognition events are
  explicit inputs instead.
- Audio hardware is not modelled: the device enumerator, the bridge
  constructor's device lookup, `Start`, `Dispose` and the `RecordingStopped`
  handler. Device lists are parameters. A failed enumeration is `None`.
- Pcm.ReadSampleAsFloat: samples and their arithmetic are exact reals, not
  32-bit floats. Rounding in the divisions, sums and mean is not modelled.
- Pcm.Binary32: a NaN or infinite bit pattern reads as 0 instead of NaN or an
  infinity, because there is no such real. A subnormal or normal pattern reads
  as its exact value.
- Pcm.DeviceAudioBridge.OnDataAvailable: a buffer too short for the frames it
  declares is excluded by the precondition. The code would throw there. The
  32-bit overflow of `frame * blockAlign` for huge blocks is not modelled.
- Pcm.FrameMono: the frame's sample count is `max(1, Channels)`. A format
  whose `BlockAlign` is smaller than its channels times sample width reads
  overlapping samples, exactly as the code does.
- AudioDevices.OrderByName: LINQ's stable `OrderBy` is modelled by insertion
  sort, which is also stable. The contract states sortedness and permutation
  only.
- Text.FoldCase: ignore-case comparison folds ASCII and Latin-1 letters only.
  Other Unicode case pairs are not folded.
- Text.IsLower: `char.IsLower` is modelled for ASCII and Latin-1 only.
- Environment variable names are compared exactly. Windows compares them
  ignoring case.
- Time has millisecond precision. .NET time stamps have tick precision.
- `FindEnvFilePath`, `GetSearchRoots` and reading the file are not modelled.
  The loader takes the file's lines as input.
- Recognition.StatusAgreesWithBridge: the status and the bridge only agree
  when a bridge opens. The bare id `loopback:` shows the PC-output status but
  records from the default microphone (`Recognition.LoopbackStatusWithoutBridge`).
- `SetContentText`, `GetNewestWord`, `SelectMode` and `ReturnToConfiguration`
  are not modelled. They only write to widgets or raise events.
- The assistant window, the program entry point and the one-line provider
  dispatch classes are not part of this model.
