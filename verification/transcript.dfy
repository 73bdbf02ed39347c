/** The transcription editor page (`src/app/srt/page.tsx`) as a state
    record and pure state transitions. The page pairs each segment of an
    uploaded Whisper transcription, by position, with the matching
    non-blank line of a reference text the user pastes, then lets the user
    step through the segments and rewrite the text of the current one.

    Times are whole milliseconds: the page only ever prints them with
    three decimals, so a segment time is taken to be a whole number of
    milliseconds. */
module Transcript {

  import opened Base
  import opened Text

  /** One element of the transcription's `segments` array. Times are whole
      milliseconds because this page only prints them to three decimals;
      the calculator page computes with the seconds, so `Timing.Segment`
      keeps them as reals. */
  datatype Segment = Segment(id: int, start: nat, end: nat, text: string)

  /** One entry of `comparedSegments`. */
  datatype Compared = Compared(
    segmentId: int,
    start: nat,
    end: nat,
    transcribedText: string,
    originalText: string,
    editedText: string)

  /** The page state: the pasted reference text, the parsed transcription
      (`None` until a file parses), the comparison list and the index of
      the segment on screen. */
  datatype Editor = Editor(
    originalText: string,
    transcription: Option<seq<Segment>>,
    compared: seq<Compared>,
    current: int)

  /** The state of a freshly opened page. */
  const Initial: Editor := Editor("", None, [], 0)

  // ---------------------------------------------------------------------
  // splitOriginalText
  // ---------------------------------------------------------------------

  /** `lines.filter(line => line.trim() !== '')`: the lines that keep a
      non-space character, untrimmed and in their original order. */
  function NonBlank(lines: seq<string>): (r: seq<string>)
    ensures |r| <= |lines|
    ensures forall k :: 0 <= k < |r| ==> r[k] in lines && Trim(r[k]) != ""
    ensures forall k :: 0 <= k < |lines| && Trim(lines[k]) != "" ==> lines[k] in r
    decreases |lines|
  {
    if |lines| == 0 then []
    else
      var tail := lines[1..];
      var rest := NonBlank(tail);
      var head := if Trim(lines[0]) != "" then [lines[0]] else [];
      NonBlankCons(lines, head, rest);
      head + rest
  }

  /** One step of the filter: keeping or dropping the first line
      preserves both directions of the membership contract. */
  lemma NonBlankCons(lines: seq<string>, head: seq<string>, rest: seq<string>)
    requires |lines| > 0
    requires head == if Trim(lines[0]) != "" then [lines[0]] else []
    requires forall k :: 0 <= k < |rest| ==> rest[k] in lines[1..] && Trim(rest[k]) != ""
    requires forall k :: 0 <= k < |lines[1..]| && Trim(lines[1..][k]) != "" ==> lines[1..][k] in rest
    ensures forall k :: 0 <= k < |head + rest| ==> (head + rest)[k] in lines && Trim((head + rest)[k]) != ""
    ensures forall k :: 0 <= k < |lines| && Trim(lines[k]) != "" ==> lines[k] in head + rest
  {
    var tail := lines[1..];
    var r := head + rest;
    assert forall k :: 0 <= k < |r| ==> r[k] in lines && Trim(r[k]) != "" by {
      forall k | 0 <= k < |r|
        ensures r[k] in lines && Trim(r[k]) != ""
      {
        if k >= |head| {
          assert r[k] == rest[k - |head|];
          InTail(rest[k - |head|], lines);
        }
      }
    }
    assert forall k :: 0 <= k < |lines| && Trim(lines[k]) != "" ==> lines[k] in r by {
      forall k | 0 <= k < |lines| && Trim(lines[k]) != ""
        ensures lines[k] in r
      {
        if k == 0 {
          assert r[0] == lines[0];
        } else {
          assert lines[k] == tail[k - 1];
          InSuffix(lines[k], head, rest);
        }
      }
    }
  }

  lemma InTail<T>(x: T, s: seq<T>)
    requires |s| > 0 && x in s[1..]
    ensures x in s
  {
    var j :| 0 <= j < |s| - 1 && s[1..][j] == x;
    assert s[j + 1] == x;
  }

  lemma InSuffix<T>(x: T, a: seq<T>, b: seq<T>)
    requires x in b
    ensures x in a + b
  {
    var j :| 0 <= j < |b| && b[j] == x;
    assert (a + b)[|a| + j] == x;
  }

  /** The filter distributes over concatenation, so it keeps the relative
      order of the lines it keeps. */
  lemma {:induction false} NonBlankAppend(a: seq<string>, b: seq<string>)
    ensures NonBlank(a + b) == NonBlank(a) + NonBlank(b)
    decreases |a|
  {
    if |a| == 0 {
      assert a + b == b;
    } else {
      assert (a + b)[1..] == a[1..] + b;
      NonBlankAppend(a[1..], b);
    }
  }

  /** `originalText.split('\n').filter(line => line.trim() !== '')`. */
  function SplitOriginalText(text: string): (r: seq<string>)
    ensures forall k :: 0 <= k < |r| ==> r[k] in Split(text, '\n')
    ensures forall k :: 0 <= k < |r| ==> '\n' !in r[k] && !IsBlank(r[k])
  {
    var lines := Split(text, '\n');
    var r := NonBlank(lines);
    assert forall k :: 0 <= k < |r| ==> '\n' !in r[k] && !IsBlank(r[k]) by {
      forall k | 0 <= k < |r|
        ensures '\n' !in r[k] && !IsBlank(r[k])
      {
        KeptLine(r[k], lines);
      }
    }
    r
  }

  /** A kept line of a split is newline-free and not blank. */
  lemma KeptLine(line: string, lines: seq<string>)
    requires line in lines && Trim(line) != ""
    requires forall k :: 0 <= k < |lines| ==> '\n' !in lines[k]
    ensures '\n' !in line && !IsBlank(line)
  {
    TrimEmptyIffBlank(line);
    var j :| 0 <= j < |lines| && lines[j] == line;
  }

  /** For text made of newline-free lines, the split keeps exactly the
      non-blank lines, in order: a line is kept alone when it is non-blank
      and dropped when it is blank, and the result for the text is the
      results for the lines one after another. */
  lemma SplitOriginalTextLines(lines: seq<string>)
    requires |lines| >= 1
    requires forall k :: 0 <= k < |lines| ==> '\n' !in lines[k]
    ensures SplitOriginalText(Join(lines, "\n")) == NonBlank(lines)
    ensures forall k :: 0 <= k < |lines| ==>
      NonBlank([lines[k]]) == (if IsBlank(lines[k]) then [] else [lines[k]])
  {
    SplitJoin(lines, '\n');
    forall k | 0 <= k < |lines|
      ensures NonBlank([lines[k]]) == (if IsBlank(lines[k]) then [] else [lines[k]])
    {
      TrimEmptyIffBlank(lines[k]);
      assert [lines[k]][1..] == [];
    }
  }

  // ---------------------------------------------------------------------
  // compareTranscription
  // ---------------------------------------------------------------------

  /** Entry `index` of the comparison: the segment's identity and times,
      its trimmed text twice, and the line at the same position. */
  function Pair(segment: Segment, index: nat, lines: seq<string>): Compared
  {
    Compared(
      segment.id, segment.start, segment.end,
      Trim(segment.text),
      if index < |lines| then lines[index] else "",
      Trim(segment.text))
  }

  /** `compareTranscription`: without a transcription or with an empty
      reference text the state is left as it is (the page only alerts);
      otherwise every segment gets one entry, in order, and the view
      returns to the first segment. */
  function CompareTranscription(e: Editor): (r: Editor)
    ensures e.transcription.None? || e.originalText == "" ==> r == e
    ensures e.transcription.Some? && e.originalText != "" ==>
      && r.originalText == e.originalText
      && r.transcription == e.transcription
      && r.current == 0
      && |r.compared| == |e.transcription.value|
    ensures e.transcription.Some? && e.originalText != "" ==>
      var segs := e.transcription.value;
      var lines := SplitOriginalText(e.originalText);
      forall i :: 0 <= i < |segs| ==>
        && r.compared[i].segmentId == segs[i].id
        && r.compared[i].start == segs[i].start
        && r.compared[i].end == segs[i].end
        && r.compared[i].transcribedText == r.compared[i].editedText == Trim(segs[i].text)
        && (i < |lines| ==> r.compared[i].originalText == lines[i] && !IsBlank(lines[i]))
        && (i >= |lines| ==> r.compared[i].originalText == "")
  {
    if e.transcription.None? || e.originalText == "" then e
    else
      var segs := e.transcription.value;
      var lines := SplitOriginalText(e.originalText);
      e.(compared := PairAll(segs, lines), current := 0)
  }

  /** One entry per segment, paired with the reference line at its index. */
  function PairAll(segs: seq<Segment>, lines: seq<string>): (r: seq<Compared>)
    ensures |r| == |segs|
    ensures forall i :: 0 <= i < |segs| ==>
      && r[i].segmentId == segs[i].id
      && r[i].start == segs[i].start
      && r[i].end == segs[i].end
      && r[i].transcribedText == r[i].editedText == Trim(segs[i].text)
      && (i < |lines| ==> r[i].originalText == lines[i])
      && (i >= |lines| ==> r[i].originalText == "")
  {
    seq(|segs|, i requires 0 <= i < |segs| => Pair(segs[i], i, lines))
  }

  // ---------------------------------------------------------------------
  // handleEditText and navigation
  // ---------------------------------------------------------------------

  /** `handleEditText`: the edited text of the segment on screen becomes
      `text`; nothing else changes. With no segment on screen the page
      would fail on `undefined.editedText` and keep its state, which is
      what is returned here. */
  function EditText(e: Editor, text: string): (r: Editor)
    ensures r.originalText == e.originalText && r.transcription == e.transcription
    ensures r.current == e.current && |r.compared| == |e.compared|
    ensures forall j :: 0 <= j < |e.compared| && j != e.current ==> r.compared[j] == e.compared[j]
    ensures 0 <= e.current < |e.compared| ==>
      && r.compared[e.current].editedText == text
      && r.compared[e.current] == e.compared[e.current].(editedText := r.compared[e.current].editedText)
    ensures !(0 <= e.current < |e.compared|) ==> r == e
  {
    if 0 <= e.current < |e.compared| then
      e.(compared := e.compared[e.current := e.compared[e.current].(editedText := text)])
    else e
  }

  /** `goToPreviousSegment`: one step back unless already at the start. */
  function GoToPrevious(e: Editor): (r: Editor)
    ensures r.originalText == e.originalText && r.transcription == e.transcription
    ensures r.compared == e.compared
    ensures e.current > 0 ==> r.current == e.current - 1
    ensures e.current <= 0 ==> r == e
  {
    if e.current > 0 then e.(current := e.current - 1) else e
  }

  /** `goToNextSegment`: one step forward unless already at the last segment. */
  function GoToNext(e: Editor): (r: Editor)
    ensures r.originalText == e.originalText && r.transcription == e.transcription
    ensures r.compared == e.compared
    ensures e.current < |e.compared| - 1 ==> r.current == e.current + 1
    ensures e.current >= |e.compared| - 1 ==> r == e
  {
    if e.current < |e.compared| - 1 then e.(current := e.current + 1) else e
  }

  // ---------------------------------------------------------------------
  // the whole page
  // ---------------------------------------------------------------------

  /** What the user can do on the page. `Upload(None)` is a file that does
      not parse as JSON (the page alerts and keeps its state). */
  datatype Action =
    | Upload(parsed: Option<seq<Segment>>)
    | TypeOriginal(text: string)
    | Compare
    | Edit(text: string)
    | Previous
    | Next

  /** One user action. An upload that parses replaces the transcription
      and nothing else; typing replaces the reference text and nothing
      else; only comparing and editing touch the comparison list, and only
      comparing and navigating move the index. Every action keeps the
      index on a real segment. */
  function Step(e: Editor, a: Action): (r: Editor)
    ensures a.Upload? ==> r == (if a.parsed.Some? then e.(transcription := a.parsed) else e)
    ensures a.TypeOriginal? ==> r == e.(originalText := a.text)
    ensures !a.Upload? && !a.Compare? ==> r.transcription == e.transcription
    ensures !a.TypeOriginal? ==> r.originalText == e.originalText
    ensures !a.Compare? && !a.Edit? ==> r.compared == e.compared
    ensures a.Edit? ==> |r.compared| == |e.compared|
    ensures !a.Compare? && !a.Previous? && !a.Next? ==> r.current == e.current
    ensures Valid(e) ==> Valid(r)
  {
    match a
    case Upload(parsed) => if parsed.Some? then e.(transcription := parsed) else e
    case TypeOriginal(text) => e.(originalText := text)
    case Compare => CompareTranscription(e)
    case Edit(text) => EditText(e, text)
    case Previous => GoToPrevious(e)
    case Next => GoToNext(e)
  }

  function Run(e: Editor, actions: seq<Action>): Editor
    decreases |actions|
  {
    if |actions| == 0 then e else Run(Step(e, actions[0]), actions[1..])
  }

  /** The segment on screen exists whenever there is any segment, and the
      index rests at 0 when there is none. */
  predicate Valid(e: Editor)
  {
    if |e.compared| == 0 then e.current == 0 else 0 <= e.current < |e.compared|
  }

  /** From the opened page, whatever the user does, the index never leaves
      `[0, len - 1]` (and stays 0 while the list is empty). */
  lemma {:induction false} RunKeepsValid(e: Editor, actions: seq<Action>)
    requires Valid(e)
    ensures Valid(Run(e, actions))
    decreases |actions|
  {
    if |actions| > 0 {
      RunKeepsValid(Step(e, actions[0]), actions[1..]);
    }
  }

  lemma ReachableIsValid(actions: seq<Action>)
    ensures Valid(Run(Initial, actions))
  {
    RunKeepsValid(Initial, actions);
  }
}
