# A verified model of the video-production helpers

The repository is a small Next.js app that prepares a narrated video for
Blender. Its pages and components hold a handful of pure data
transformations. This project models those transformations as Dafny
functions over explicit inputs and state, and proves what they guarantee:

- **Transcript editor** (`Transcript`, `src/app/srt/page.tsx`). It splits a
  pasted reference text into its non-blank lines. It pairs those lines by
  position with the segments of a Whisper transcription. The user can edit
  the text of the segment on screen and step backwards and forwards.
- **SubRip export** (`Srt`, `src/app/srt/page.tsx`). This covers the
  `formatTime`/`pad` timestamp formatter and the text of the `.srt` file.
- **Timing calculator** (`Timing`, `src/app/page.tsx`).
  - A single left-to-right pass groups the transcription segments, one
    group per image.
  - A group closes once its span reaches the total duration divided by
    `ceil(n / 2)`.
  - Times are converted to frames with `ceil`.
- **Lead-in adjustment** (`LeadIn`, `src/app/script/page.tsx`). Times become
  frames with `floor`. Starts are pulled back 40 frames, never below 0. The
  images are numbered.
- **Exporters**:
  - `Escaping` and `Exporter` model `src/components/home.tsx`: the CSV file
    and the values the generated Python script is filled with.
  - `Blender` models `src/components/blender_script.tsx` and
    `src/components/blender_script_v2.tsx`: path normalisation and the
    timeline range.
- **Shared building blocks**:
  - `Base` holds an option type and JavaScript's `Math.floor`, `Math.ceil`
    and `Math.max`.
  - `Text` holds the JavaScript string and array primitives the pages use:
    `join`, `split`, `trim`, `padStart`, `replace` and number-to-string.

How values are represented:

- Seconds are exact `real`s.
- The SubRip module works in whole milliseconds, so `toFixed(3)` is exact
  there.
- JSON input arrives already parsed. A parse failure is an explicit
  constructor.
- A thrown and caught failure is an explicit `None` or error state.

Segments and lines are paired purely by index
(`src/app/srt/page.tsx:42-50`).

## Model

| member | source | states |
|---|---|---|
| Transcript.NonBlank | src/app/srt/page.tsx:32 | keeps exactly the lines whose trim is non-empty: every kept line is an input line that is not blank, and every non-blank input line is kept, untrimmed |
| Transcript.NonBlankAppend | src/app/srt/page.tsx:32 | the filter distributes over concatenation, so the kept lines stay in their original relative order |
| Transcript.SplitOriginalText | src/app/srt/page.tsx:31-33 | every returned line is one of the `'\n'`-separated lines of the text, holds no line break and is not all white space |
| Transcript.SplitOriginalTextLines | src/app/srt/page.tsx:31-33 | for a text made of newline-free lines, the result is exactly the non-blank lines in order; a single line is kept iff it is not blank |
| Transcript.CompareTranscription | src/app/srt/page.tsx:36-54 | without a transcription or with an empty reference text the state is unchanged; otherwise one entry per segment in order, id/start/end copied, transcribed and edited text both the trimmed segment text, original text the line at the same index or `""`, index reset to 0 |
| Transcript.EditText | src/app/srt/page.tsx:57-61 | only `editedText` of the entry on screen changes; length, other fields and other entries are untouched; with no entry on screen nothing changes |
| Transcript.GoToPrevious | src/app/srt/page.tsx:93-97 | moves back one step exactly when the index is above 0 and changes nothing else |
| Transcript.GoToNext | src/app/srt/page.tsx:99-103 | moves forward one step exactly when the index is below `len - 1` and changes nothing else |
| Transcript.Step | src/app/srt/page.tsx:13-132 | a parsed upload replaces only the transcription and a failed one changes nothing; typing replaces only the reference text; only comparing and editing touch the comparison list, editing without changing its length; only comparing and navigating move the index; every action keeps the index inside `[0, len - 1]`, or at 0 when the list is empty |
| Transcript.RunKeepsValid | src/app/srt/page.tsx:36-103 | any sequence of actions from a valid state ends in a valid state |
| Transcript.ReachableIsValid | src/app/srt/page.tsx:9-10 | from the freshly opened page, whatever the user does, the index stays on a real segment |
| Text.Split | src/app/srt/page.tsx:32 | the pieces hold no separator and joined with the separator give back the string |
| Text.SplitJoin | src/app/srt/page.tsx:32 | splitting a join of separator-free pieces gives back the pieces |
| Text.TrimEmptyIffBlank | src/app/srt/page.tsx:32 | `trim()` is empty exactly when every character is JavaScript white space |
| Text.PaddedValue | src/app/srt/page.tsx:90 | zero-padding a number's decimal form keeps it all digits and keeps its value |
| Text.IntToStringRoundTrip | src/components/home.tsx:183 | an integer's decimal form reads back as the integer and holds no comma or line break |
| Srt.TimeFields | src/app/srt/page.tsx:83-85 | minutes and seconds are below 60, milliseconds below 1000, and the four fields recompose the time |
| Srt.FormatTime | src/app/srt/page.tsx:82-90 | the page's timestamp is hours and minutes padded to two digits, the seconds unpadded, a comma, and three millisecond digits: `pad` leaves the five-character seconds string as it is, and the one `.` replaced is its decimal point |
| Srt.FormatTimeConformsIff | src/app/srt/page.tsx:82-90 | the page's timestamp is a SubRip timecode exactly when the seconds field is 10 or more |
| Srt.FormatTimeUnpaddedSeconds | src/app/srt/page.tsx:85-86 | 5 seconds is written `00:00:5,000`; the corrected formatter writes `00:00:05,000` |
| Srt.FormatTimeSrt | src/app/srt/page.tsx:82-90 | the corrected formatter always yields a SubRip timecode |
| Srt.FormatTimeRoundTrip | src/app/srt/page.tsx:82-90 | the page's timestamp reads back to the same millisecond count |
| Srt.FormatTimeSrtRoundTrip | src/app/srt/page.tsx:82-90 | the corrected timestamp reads back to the same millisecond count |
| Srt.SrtText | src/app/srt/page.tsx:67-72 | the file is the per-segment lines (number, time line, edited text, empty line), flattened in order and joined by `'\n'` |
| Srt.GenerateSrtFile | src/app/srt/page.tsx:64-72 | no file for an empty list; otherwise the blocks written with the page's formatter |
| Srt.SrtIgnoresOtherFields | src/app/srt/page.tsx:67-71 | only start, end and edited text reach the file |
| Srt.SrtLines | src/app/srt/page.tsx:67-72 | the file's lines are, per segment in order, its number `i + 1`, its time line, its edited text and a blank line |
| Srt.TimeRangeRoundTrip | src/app/srt/page.tsx:71 | for any formatter whose timestamps hold no space or line break and read back to their time, a time line `start --> end` reads back to the two times |
| Srt.SrtTimesRoundTrip | src/app/srt/page.tsx:67-72 | with such a formatter and edited texts without line breaks, each block's time line reads back to the segment's exact start and end |
| Srt.FormatTimeReadable | src/app/srt/page.tsx:82-90 | the page's timestamps hold no space or line break and read back to their time, even where they are not SubRip timecodes |
| Srt.SrtFileTimesReadBack | src/app/srt/page.tsx:64-72 | for a non-empty list whose edited texts have no line breaks, in the page's file and in the corrected file alike, the second line of each block reads back to the segment's start and end |
| Timing.FirstGroupLength | src/app/page.tsx:20-24 | the first group is the shortest prefix whose span reaches the threshold, or the whole list |
| Timing.Groups | src/app/page.tsx:17-33 | the loop's groups are non-empty, concatenate back to the segments, none closes early, every group but the last reaches the threshold, and there are between 1 and n of them |
| Timing.GreedyPartitionUnique | src/app/page.tsx:20-33 | two groupings with those properties are equal |
| Timing.GroupsCharacterised | src/app/page.tsx:20-33 | a grouping is the loop's grouping exactly when it has those properties |
| Timing.LastGroupHoldsLastSegment | src/app/page.tsx:22-31 | the last group ends with the last segment, so nothing is left pending |
| Timing.RecommendedImages | src/app/page.tsx:14 | `ceil(n / 2)` is at least 1 and is the least `r` with `2r >= n` |
| Timing.ImageSegments | src/app/page.tsx:25-30 | each group's entry starts at its first start, ends at its last end, lasts end minus first start, and joins its texts with single spaces |
| Timing.Timings | src/app/page.tsx:36-42 | images numbered `1..k` in order, start and end frames are `ceil(time * fps)`, duration and text copied |
| Timing.CalculateTimings | src/app/page.tsx:12-52 | fails exactly on an empty list; otherwise total duration is the last end, total frames its ceiling in frames, one timing per group in order with the group's frames, span and text, and 1 to n images |
| Timing.CalculateTimingsPartition | src/app/page.tsx:13-33 | the groups behind the timings cover the segments exactly once, contiguously and in order, the last ending with the last segment |
| Timing.FrameMonotone | src/app/page.tsx:38-39 | later times never map to earlier frames |
| Timing.FramesOrdered | src/app/page.tsx:25-39 | for segments in time order every image's start frame is at most its end frame |
| Timing.HandleJsonSubmit | src/app/page.tsx:54-66 | calculations are set with no error exactly when the input parses and has a non-empty segment list; otherwise they are cleared with `Invalid JSON format` |
| LeadIn.FloorFrame | src/app/script/page.tsx:17-18 | the frame is the floor of time times fps |
| LeadIn.LeadInStart | src/app/script/page.tsx:19-23 | the start frame is `max(frame - 40, 0)` |
| LeadIn.AdjustStartTimes | src/app/script/page.tsx:15-26 | same length and order; start `max(floor(start * fps) - 40, 0)`, never negative and at most 40 frames early; stop `floor(stop * fps)` with no shift; other fields kept; image number `i + 1` |
| LeadIn.AdjustKeepsOrder | src/app/script/page.tsx:17-24 | elements whose starts (or stops) are in order keep that order in frames, and an element that starts no later than it stops, with a stop of at least 0, still does; with a negative stop the start is clamped to frame 0, above the stop frame |
| LeadIn.HandleSubmit | src/app/script/page.tsx:27-34 | a malformed input alerts and leaves `data` as it was; otherwise `data` is the adjustment at 24 fps whatever the FPS field holds |
| Escaping.EscapeQuote | src/components/blender_script.tsx:17-19 | a quote gains a backslash in front; any other character is kept |
| Escaping.SanitizeString | src/components/blender_script.tsx:17-19 | the two replacements equal the character-by-character escaping `EscapeQuotes`: each quote gains a backslash, everything else is unchanged, the length grows by the number of quotes, and quote-free text is returned as it is |
| Escaping.ReplaceQuotesPerChar | src/components/home.tsx:13 | the chain of two global replacements acts one character at a time, as `EscapeQuotes` does |
| Escaping.SanitizePlainRoundTrip | src/components/home.tsx:11-14 | for text with no backslash or line break, the escaped text reads back from a Python literal as the original |
| Escaping.SanitizeTrailingBackslash | src/components/home.tsx:13 | the text `a\` is left as it is, so the Python literal `"a\"` never closes; the corrected escaping reads back |
| Escaping.PyEscape | src/components/home.tsx:13 | the corrected escaping never shortens the text and agrees with the page's escaping on text with no backslash or line break |
| Escaping.PyEscapeRoundTrip | src/components/home.tsx:108-114 | every text, escaped and embedded in the script's double-quoted literal, reads back as itself |
| Escaping.CsvQuote | src/components/home.tsx:182-183 | the field is wrapped in quotes |
| Escaping.CsvQuoteRoundTrip | src/components/home.tsx:182-183 | removing the outer quotes and collapsing `""` to `"` recovers the text (section 2, rule 7 of RFC 4180) |
| Exporter.GenerateCsv | src/components/home.tsx:179-186 | the CSV starts with the header line and its line break; with no rows that is all; otherwise it is exactly the header followed by the rows, joined by line breaks, whatever the texts hold, and it ends with the last row's closing quote, with no trailing line break |
| Exporter.CsvRows | src/components/home.tsx:181-184 | one row per timing, in order |
| Exporter.CsvRow | src/components/home.tsx:182-183 | a row reads back as the timing's number, start and end frames verbatim, duration `end - start`, and the exact text |
| Exporter.CsvLines | src/components/home.tsx:179-186 | for texts with no line break, the CSV's lines are the header then the rows, in order |
| Exporter.TransitionFrames | src/components/home.tsx:17-18 | the transition is at least 80 frames and at least the requested length, and is one of the two |
| Exporter.TransitionHalfFrames | src/components/home.tsx:19 | the half is `floor(frames / 2)` |
| Exporter.OverlapAtLeastMinimum | src/components/home.tsx:17-19 | for any request the half transition is at least 40 frames |
| Exporter.PageTransition | src/components/home.tsx:17-19 | the calculator page's 24-frame request becomes 80 frames with a 40-frame half |
| Exporter.EscapeTimings | src/components/home.tsx:11-14 | count and order kept; only each text changes, to its escaped form |
| Exporter.EscapedTextsReadBack | src/components/home.tsx:11-14 | embedded texts read back as the originals: always with the corrected escaping, and for text with no backslash or line break with the page's |
| Exporter.ScriptEntries | src/components/home.tsx:108-114 | each script entry's start and end are the frames, its duration is end minus start, and its number and text are copied |
| Exporter.GeneratePythonScript | src/components/home.tsx:11-46 | the timeline runs from 0 to the total frames at the page's fps; entries carry the image numbers, the escaped texts and `end - start` durations; the transition is `max(requested, 80)` frames and its half `floor(transition / 2)`, so at least 80 and 40 |
| Blender.ForwardSlashes | src/components/blender_script_v2.tsx:28 | same length; each backslash becomes a slash and every other character is kept |
| Blender.NormalizePath | src/components/blender_script_v2.tsx:26-35 | no backslash; ends with a slash; the prefix is the slash-converted path; one character longer exactly when that did not already end with a slash |
| Blender.NormalizePathIdempotent | src/components/blender_script_v2.tsx:26-35 | normalising twice is normalising once |
| Blender.NormalizePathFixedPoint | src/components/blender_script_v2.tsx:26-35 | a path is returned unchanged exactly when it has no backslash and ends with a slash |
| Blender.TotalFrames | src/components/blender_script.tsx:34 | the first start plus the total frames is the last stop |
| Blender.GenerateV1 | src/components/blender_script.tsx:28-55 | no script for absent or empty data; otherwise fps as given, start frame the first start, end frame the last stop minus the first start, the data and the folder embedded as given |
| Blender.SomeData | src/components/blender_script_v2.tsx:42 | same length and order; start and stop copied, prompt cleared, image number `i + 1` |
| Blender.GenerateV2 | src/components/blender_script_v2.tsx:36-47 | no script for absent or empty data; otherwise fps as given, start frame the first start, end frame the last stop minus the first start, the data renumbered by `SomeData` (times copied, prompts cleared, numbers from 1), and the folder as `NormalizePath` rewrites it, so free of backslashes and ending in a slash |
| Blender.VersionsAgree | src/components/blender_script_v2.tsx:39-42 | both versions refuse the same data, set up the same timeline, and embed the same times in the same order |

## Left out

- Reading files, `JSON.parse`, downloads, the clipboard, alerts and React rendering are left out.
  - Inputs arrive already parsed.
  - A parse failure is the `Malformed` (or `Upload(None)`) constructor.
  - The outputs are the values the page would write.
- Floating point is left out. Seconds are exact reals, so `Math.floor`/`Math.ceil` of `time * fps` never rounds wrongly here.
- The SubRip module takes times as whole milliseconds.
- `Srt.FormatTime` is not modelled on fractional milliseconds, where `toFixed(3)` rounds.
- The Python template text is left out: `src/components/template/blender_script.ts` and `src/components/template/blender_scripts_others.ts`. It is constant text with trivial interpolation. The generators return the record of substituted values instead.
- `src/components/Untitled-1.py` is not part of this model. It is a Blender script using a foreign API and random effect parameters.
- `src/app/jayaram/page.tsx` is not part of this model.
- `sanitizeString` is defined in `src/components/blender_script.tsx:17-19` but never called there. It is modelled as the chain of replacements that `src/components/home.tsx:13` applies.
- `Blender.GenerateV1` does not model the layout of the embedded JSON (`JSON.stringify(data, null, 2)`). It embeds the data itself.
- `Blender.GenerateV2` treats `data[0]?.start || 0` as the start itself. The two differ only for `NaN` or missing fields, which numbers here cannot be.
- `Transcript.EditText`: with no segment on screen the page throws on `undefined.editedText` and keeps its state. The model returns the state unchanged.
- `Transcript.Step`: an upload only replaces the parsed transcription. The stored `File` object is not modelled.
- `Timing.HandleJsonSubmit`: other thrown failures fall under `Malformed`, for example a `segments` value that is not an array. A segment without an `end` does not throw in the page: its arithmetic gives `NaN` frames, which exact reals cannot represent.
- `Timing.CalculateTimings`: segment fields other than `start`, `end` and `text` are ignored, as the page does.
- `LeadIn.AdjustStartTimes`: an element already holding an `image_number` gets it overwritten in the page. Here `rest` stands for the remaining fields.
- `Exporter.CsvLines`: proved only for texts with no line break. RFC 4180 allows quoted line breaks, which a line-by-line reading would split.
- `Srt.SrtLines`: proved only for edited texts and timestamps with no line break.
- `Srt.SrtTimesRoundTrip`: proved only for edited texts with no line break. The page's text area accepts line breaks, and such a text adds lines to its block, which shifts the lines of the blocks after it.
- `Srt.SrtFileTimesReadBack`: proved only for a non-empty list whose edited texts have no line break. An empty list gives no file, and a text with line breaks shifts the lines of the blocks after it, as for `Srt.SrtTimesRoundTrip`.
- `Escaping.PyEscapeRoundTrip`: the Python literal reading covers the escapes `\\`, `\"`, `\'`, `\n` and `\r`. Any other escape reads as a failure. The corrected escaping never produces one.

## Findings

| source | as written | input that shows it | evidently intended | confidence | as-written member | corrected member |
|---|---|---|---|---|---|---|
| src/app/srt/page.tsx:85-86 | `pad(secs)` pads the string `"S.mmm"`, which is already five characters, so seconds below 10 keep one digit | a time of 5 s (5000 ms) gives `00:00:5,000` | `00:00:05,000`, the two-digit seconds of a SubRip timecode | high; not executed | Srt.FormatTimeUnpaddedSeconds | Srt.FormatTimeSrt |
| src/components/home.tsx:13 | the text is escaped for a `"…"` Python literal by escaping quotes only, not backslashes | the text `a\` is embedded as `"a\"`, whose closing quote is escaped, so the literal never ends | backslashes escaped as `\\` before the quotes, so every text reads back | medium; not executed | Escaping.SanitizeTrailingBackslash | Escaping.PyEscape |

The serializer (`Srt.SrtText`) and the script generator (`Exporter.GeneratePythonScript`) each take the formatter or escaper as a parameter. The page's behaviour is the instance with the as-written member. The timestamp round trip holds for both formatters: the page's timestamps read back even where they are not SubRip timecodes. The escaping round trip holds for every text only with the corrected escaper, and for the page's only on text with no backslash or line break.
