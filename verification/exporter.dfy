/** The export panel (`src/components/home.tsx`): the CSV download and the
    values the generated Blender script is filled in with — escaped texts,
    the script's timing entries and the transition length. The Python
    template text itself is not modelled; `ScriptSettings` holds what is
    substituted into it. */
module Exporter {

  import opened Base
  import opened Text
  import opened Escaping
  import opened Timing

  // ---------------------------------------------------------------------
  // generateCSV
  // ---------------------------------------------------------------------

  /** The header line, without the line break that follows it: the five
      column names separated by commas. */
  const CsvHeaderLine: string :=
    "Image Number" + "," + "Start Frame" + "," + "End Frame" + "," + "Duration Frames" + "," + "Text"

  /** One data row: the three numbers, the duration in frames, and the
      quoted text. Every row reads back as the timing it was written from,
      the text recovered exactly and the duration equal to
      `endFrame - startFrame`. */
  function CsvRow(t: ImageTiming): (r: string)
    ensures ParseCsvRow(r) ==
      Some(CsvRecord(t.imageNumber, t.startFrame, t.endFrame, t.endFrame - t.startFrame, t.text))
  {
    IntToStringRoundTrip(t.imageNumber);
    IntToStringRoundTrip(t.startFrame);
    IntToStringRoundTrip(t.endFrame);
    IntToStringRoundTrip(t.endFrame - t.startFrame);
    CsvQuoteRoundTrip(t.text);
    ParseJoinedFields(IntToString(t.imageNumber), IntToString(t.startFrame), IntToString(t.endFrame),
                      IntToString(t.endFrame - t.startFrame), CsvQuote(t.text));
    IntToString(t.imageNumber) + "," + IntToString(t.startFrame) + "," + IntToString(t.endFrame)
      + "," + IntToString(t.endFrame - t.startFrame) + "," + CsvQuote(t.text)
  }

  function CsvRows(timings: seq<ImageTiming>): (r: seq<string>)
    ensures |r| == |timings| && forall i :: 0 <= i < |timings| ==> r[i] == CsvRow(timings[i])
  {
    seq(|timings|, i requires 0 <= i < |timings| => CsvRow(timings[i]))
  }

  /** `generateCSV`: the header line and its line break, then the rows
      joined by line breaks, with none after the last row. */
  function GenerateCsv(timings: seq<ImageTiming>): (r: string)
    ensures |r| > |CsvHeaderLine| && r[..|CsvHeaderLine| + 1] == CsvHeaderLine + "\n"
    ensures |timings| == 0 ==> r == CsvHeaderLine + "\n"
    ensures |timings| > 0 ==> r[|r| - 1] == '"'
    ensures |timings| > 0 ==> r == Join([CsvHeaderLine] + CsvRows(timings), "\n")
  {
    var rows := CsvRows(timings);
    var r := CsvHeaderLine + "\n" + Join(rows, "\n");
    assert |timings| > 0 ==> r == Join([CsvHeaderLine] + rows, "\n") by {
      if |timings| > 0 {
        JoinAppend([CsvHeaderLine], rows, "\n");
        assert Join([CsvHeaderLine], "\n") == CsvHeaderLine;
      }
    }
    assert r[..|CsvHeaderLine| + 1] == CsvHeaderLine + "\n";
    assert |timings| > 0 ==> (JoinLast(rows, "\n"); Join(rows, "\n")[|Join(rows, "\n")| - 1] == '"');
    r
  }

  /** A join ends the way its last part does. */
  lemma {:induction false} JoinLast(parts: seq<string>, sep: string)
    requires |parts| > 0 && |parts[|parts| - 1]| > 0
    ensures |Join(parts, sep)| > 0
    ensures Join(parts, sep)[|Join(parts, sep)| - 1] == parts[|parts| - 1][|parts[|parts| - 1]| - 1]
    decreases |parts|
  {
    if |parts| > 1 {
      JoinLast(parts[1..], sep);
    }
  }

  /** What a row reads back as. */
  datatype CsvRecord = CsvRecord(imageNumber: int, startFrame: int, endFrame: int, durationFrames: int, text: string)

  /** `s` cut at its first `c`, when there is one. */
  function SplitFirst(s: string, c: char): (r: Option<(string, string)>)
    ensures r.Some? ==> c !in r.value.0 && s == r.value.0 + [c] + r.value.1
  {
    var i := IndexOf(s, c);
    if i == |s| then None
    else
      assert s == s[..i] + [c] + s[i + 1..];
      Some((s[..i], s[i + 1..]))
  }

  lemma SplitFirstAfter(a: string, c: char, b: string)
    requires c !in a
    ensures SplitFirst(a + [c] + b, c) == Some((a, b))
  {
    IndexOfAfter(a, c, b);
    var s := a + [c] + b;
    assert s[..|a|] == a;
    assert s[|a| + 1..] == b;
  }

  /** Reads a row: four comma-free numeric fields, then a quoted text that
      may itself hold commas. */
  function ParseCsvRow(line: string): Option<CsvRecord>
  {
    match SplitFirst(line, ',')
    case None => None
    case Some((f1, r1)) =>
      match SplitFirst(r1, ',')
      case None => None
      case Some((f2, r2)) =>
        match SplitFirst(r2, ',')
        case None => None
        case Some((f3, r3)) =>
          match SplitFirst(r3, ',')
          case None => None
          case Some((f4, f5)) => FieldsRecord(f1, f2, f3, f4, f5)
  }

  /** The record five separated fields stand for, when each reads. */
  function FieldsRecord(f1: string, f2: string, f3: string, f4: string, f5: string): Option<CsvRecord>
  {
    var n1, n2, n3, n4, t := ParseInt(f1), ParseInt(f2), ParseInt(f3), ParseInt(f4), CsvUnquote(f5);
    if n1.Some? && n2.Some? && n3.Some? && n4.Some? && t.Some? then
      Some(CsvRecord(n1.value, n2.value, n3.value, n4.value, t.value))
    else None
  }

  /** Four comma-free fields and a last field, joined by commas, are cut
      back into exactly those fields. */
  lemma ParseJoinedFields(a: string, b: string, c: string, d: string, q: string)
    requires ',' !in a && ',' !in b && ',' !in c && ',' !in d
    ensures ParseCsvRow(a + "," + b + "," + c + "," + d + "," + q) == FieldsRecord(a, b, c, d, q)
  {
    var r3 := d + [','] + q;
    var r2 := c + [','] + r3;
    var r1 := b + [','] + r2;
    assert a + "," + b + "," + c + "," + d + "," + q == a + [','] + r1;
    SplitFirstAfter(a, ',', r1);
    SplitFirstAfter(b, ',', r2);
    SplitFirstAfter(c, ',', r3);
    SplitFirstAfter(d, ',', q);
  }

  /** Five fields joined by commas hold a line break only if a field does. */
  lemma FieldsNoBreak(a: string, b: string, c: string, d: string, q: string)
    requires '\n' !in a && '\n' !in b && '\n' !in c && '\n' !in d && '\n' !in q
    ensures '\n' !in a + "," + b + "," + c + "," + d + "," + q
  {
    assert '\n' !in ",";
  }

  /** A row holds no line break when the text holds none. */
  lemma CsvRowNoBreak(t: ImageTiming)
    requires '\n' !in t.text
    ensures '\n' !in CsvRow(t)
  {
    IntToStringRoundTrip(t.imageNumber);
    IntToStringRoundTrip(t.startFrame);
    IntToStringRoundTrip(t.endFrame);
    IntToStringRoundTrip(t.endFrame - t.startFrame);
    ReplaceAllKeepsAbsent(t.text, '"', "\"\"", '\n');
    assert '\n' !in CsvQuote(t.text) by {
      assert '\n' !in "\"";
    }
    FieldsNoBreak(IntToString(t.imageNumber), IntToString(t.startFrame), IntToString(t.endFrame),
                  IntToString(t.endFrame - t.startFrame), CsvQuote(t.text));
  }

  lemma RowsNoBreak(timings: seq<ImageTiming>)
    requires forall i :: 0 <= i < |timings| ==> '\n' !in timings[i].text
    ensures forall k :: 0 <= k < |timings| ==> '\n' !in CsvRows(timings)[k]
  {
    forall k | 0 <= k < |timings|
      ensures '\n' !in CsvRows(timings)[k]
    {
      CsvRowNoBreak(timings[k]);
    }
  }

  lemma HeaderNoBreak()
    ensures '\n' !in CsvHeaderLine
  {
    assert '\n' !in "Image Number" by {}
    assert '\n' !in "Start Frame" by {}
    assert '\n' !in "End Frame" by {}
    assert '\n' !in "Duration Frames" by {}
    assert '\n' !in "Text" by {}
    FieldsNoBreak("Image Number", "Start Frame", "End Frame", "Duration Frames", "Text");
  }

  /** For texts without line breaks, the CSV's lines are the header and
      then one row per timing, in order. */
  lemma CsvLines(timings: seq<ImageTiming>)
    requires |timings| > 0
    requires forall i :: 0 <= i < |timings| ==> '\n' !in timings[i].text
    ensures Split(GenerateCsv(timings), '\n') == [CsvHeaderLine] + CsvRows(timings)
  {
    var lines := [CsvHeaderLine] + CsvRows(timings);
    LinesNoBreak(timings);
    assert GenerateCsv(timings) == Join(lines, ['\n']);
    SplitJoin(lines, '\n');
  }

  /** Neither the header nor a row of a text without line breaks holds one. */
  lemma LinesNoBreak(timings: seq<ImageTiming>)
    requires forall i :: 0 <= i < |timings| ==> '\n' !in timings[i].text
    ensures forall k :: 0 <= k < |[CsvHeaderLine] + CsvRows(timings)| ==>
      '\n' !in ([CsvHeaderLine] + CsvRows(timings))[k]
  {
    var rows := CsvRows(timings);
    var lines := [CsvHeaderLine] + rows;
    RowsNoBreak(timings);
    HeaderNoBreak();
    forall k | 0 <= k < |lines| ensures '\n' !in lines[k] {
      if k > 0 {
        assert lines[k] == rows[k - 1];
      }
    }
  }

  // ---------------------------------------------------------------------
  // generatePythonScript
  // ---------------------------------------------------------------------

  /** The overlap the script is forced to keep, in frames. */
  const MinOverlap: int := 40

  /** `Math.max(calculations.transitionFrames, minOverlap * 2)`. */
  function TransitionFrames(requested: int): (r: int)
    ensures r >= 2 * MinOverlap && r >= requested
    ensures r == requested || r == 2 * MinOverlap
  {
    Max(requested, MinOverlap * 2)
  }

  /** `Math.floor(transitionFrames / 2)`. */
  function TransitionHalfFrames(frames: int): (r: int)
    ensures 2 * r <= frames < 2 * r + 2
  {
    Floor(frames as real / 2.0)
  }

  /** Whatever transition length is requested, each side of a transition
      keeps at least the minimum overlap. */
  lemma OverlapAtLeastMinimum(requested: int)
    ensures TransitionHalfFrames(TransitionFrames(requested)) >= MinOverlap
  {
  }

  /** The text-escaping step: only each timing's text changes, to its
      escaped form; count and order are kept. `escape` is the replacement
      chain (`SanitizeString` as written). */
  function EscapeTimings(timings: seq<ImageTiming>, escape: string -> string): (r: seq<ImageTiming>)
    ensures |r| == |timings|
    ensures forall i :: 0 <= i < |timings| ==>
      && r[i].text == escape(timings[i].text)
      && r[i].imageNumber == timings[i].imageNumber
      && r[i].startFrame == timings[i].startFrame
      && r[i].endFrame == timings[i].endFrame
      && r[i].durationSeconds == timings[i].durationSeconds
  {
    seq(|timings|, i requires 0 <= i < |timings| => timings[i].(text := escape(timings[i].text)))
  }

  /** With the replacement chain as written, the embedded texts read back
      as the originals when they hold no backslash or line break; with the
      corrected escaping they always do. */
  lemma EscapedTextsReadBack(timings: seq<ImageTiming>)
    ensures forall i :: 0 <= i < |timings| && Plain(timings[i].text) ==>
      PyDecode(EscapeTimings(timings, SanitizeString)[i].text) == Some(timings[i].text)
    ensures forall i :: 0 <= i < |timings| ==>
      PyDecode(EscapeTimings(timings, PyEscape)[i].text) == Some(timings[i].text)
  {
    forall i | 0 <= i < |timings| && Plain(timings[i].text)
      ensures PyDecode(EscapeTimings(timings, SanitizeString)[i].text) == Some(timings[i].text)
    {
      SanitizePlainRoundTrip(timings[i].text);
    }
    forall i | 0 <= i < |timings|
      ensures PyDecode(EscapeTimings(timings, PyEscape)[i].text) == Some(timings[i].text)
    {
      PyEscapeRoundTrip(timings[i].text);
    }
  }

  /** One entry of the script's `image_timings` list. */
  datatype ScriptEntry = ScriptEntry(start: int, end: int, duration: int, imageNumber: nat, text: string)

  function ScriptEntries(timings: seq<ImageTiming>): (r: seq<ScriptEntry>)
    ensures |r| == |timings|
    ensures forall i :: 0 <= i < |timings| ==>
      && r[i].start == timings[i].startFrame
      && r[i].end == timings[i].endFrame
      && r[i].duration == r[i].end - r[i].start
      && r[i].imageNumber == timings[i].imageNumber
      && r[i].text == timings[i].text
  {
    seq(|timings|, i requires 0 <= i < |timings| =>
      ScriptEntry(timings[i].startFrame, timings[i].endFrame,
                  timings[i].endFrame - timings[i].startFrame,
                  timings[i].imageNumber, timings[i].text))
  }

  /** The values substituted into the script template. */
  datatype ScriptSettings = ScriptSettings(
    fps: nat,
    frameStart: int,
    frameEnd: int,
    entries: seq<ScriptEntry>,
    transitionFrames: int,
    transitionHalfFrames: int)

  /** `generatePythonScript` without the template text: the timeline runs
      from frame 0 to `totalFrames`, the entries carry the numbers and the
      escaped texts, and the transition is `max(requested, 80)` frames with
      a floored half, so at least twice the minimum overlap. */
  function GeneratePythonScript(c: Calculations, escape: string -> string): (r: ScriptSettings)
    ensures r.fps == c.fps && r.frameStart == 0 && r.frameEnd == c.totalFrames
    ensures |r.entries| == |c.imageTimings|
    ensures forall i :: 0 <= i < |c.imageTimings| ==>
      && r.entries[i].start == c.imageTimings[i].startFrame
      && r.entries[i].end == c.imageTimings[i].endFrame
      && r.entries[i].duration == r.entries[i].end - r.entries[i].start
      && r.entries[i].imageNumber == c.imageTimings[i].imageNumber
      && r.entries[i].text == escape(c.imageTimings[i].text)
    ensures r.transitionFrames == TransitionFrames(c.transitionFrames)
    ensures r.transitionHalfFrames == TransitionHalfFrames(r.transitionFrames)
    ensures r.transitionFrames >= 2 * MinOverlap && r.transitionHalfFrames >= MinOverlap
  {
    var frames := TransitionFrames(c.transitionFrames);
    OverlapAtLeastMinimum(c.transitionFrames);
    ScriptSettings(c.fps, 0, c.totalFrames, ScriptEntries(EscapeTimings(c.imageTimings, escape)),
                   frames, TransitionHalfFrames(frames))
  }

  /** The calculator page asks for 24 transition frames, so its scripts use
      the 80-frame minimum and a 40-frame half. */
  lemma PageTransition()
    ensures TransitionFrames(PageTransitionFrames) == 80
    ensures TransitionHalfFrames(TransitionFrames(PageTransitionFrames)) == 40
  {
  }
}
