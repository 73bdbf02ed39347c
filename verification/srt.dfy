/** The SubRip export of the transcription editor (`src/app/srt/page.tsx`):
    the `formatTime`/`pad` timestamp formatter and the text of the
    downloaded `.srt` file.

    A SubRip timecode is `hours:minutes:seconds,milliseconds` with two
    digits for each of hours (at least), minutes and seconds and three for
    milliseconds. The page's formatter pads the seconds field as the
    string `"S.mmm"`, which is already five characters long, so seconds
    below ten come out with a single digit. `FormatTime` is that formatter
    as written; `FormatTimeSrt` pads the seconds as the format requires.
    The serializer takes the formatter as a parameter so that the page's
    output and the corrected output are one definition. */
module Srt {

  import opened Base
  import opened Text
  import opened Transcript

  // A time of `ms` milliseconds is `ms / 1000` seconds; the page's fields
  // are computed from the seconds, here from the milliseconds directly.

  /** `Math.floor(seconds / 3600)`. */
  function Hours(ms: nat): nat { ms / 3600000 }

  /** `Math.floor((seconds % 3600) / 60)`. */
  function Minutes(ms: nat): nat { ms % 3600000 / 60000 }

  /** Whole part of `seconds % 60`. */
  function Seconds(ms: nat): nat { ms % 60000 / 1000 }

  /** The three decimals of `seconds % 60`. */
  function Millis(ms: nat): nat { ms % 1000 }

  /** The four fields recompose the time and the lower three are in range. */
  lemma TimeFields(ms: nat)
    ensures Minutes(ms) < 60 && Seconds(ms) < 60 && Millis(ms) < 1000
    ensures Hours(ms) * 3600000 + Minutes(ms) * 60000 + Seconds(ms) * 1000 + Millis(ms) == ms
  {
    var h, r1 := ms / 3600000, ms % 3600000;
    var m, r2 := r1 / 60000, r1 % 60000;
    assert ms == (h * 60 + m) * 60000 + r2;
    assert r2 == ms % 60000;
    var s := r2 / 1000;
    assert ms == ((h * 60 + m) * 60 + s) * 1000 + r2 % 1000;
    assert r2 % 1000 == ms % 1000;
  }

  /** `pad`: `num.toString().padStart(2, '0')`. */
  function Pad(s: string): string
  {
    PadStart(s, 2, '0')
  }

  /** Three-digit zero padding of the milliseconds. */
  function Pad3(n: nat): string
  {
    PadStart(NatToString(n), 3, '0')
  }

  /** `(seconds % 60).toFixed(3)`, exact for a whole number of milliseconds. */
  function SecondsFixed(ms: nat): string
  {
    NatToString(Seconds(ms)) + "." + Pad3(Millis(ms))
  }

  /** `formatTime` as written: hours and minutes padded to two digits, the
      seconds field `pad(secs)` where `secs` is already at least five
      characters long, and the first `.` replaced by `,`. What it emits is
      two-digit (at least) hours, two-digit minutes, the seconds with no
      padding, a comma and three millisecond digits: the padding of the
      seconds string changes nothing and the only `.` replaced is the
      decimal point of the seconds. */
  function FormatTime(ms: nat): (r: string)
    ensures r == Pad(NatToString(Hours(ms))) + ":" + Pad(NatToString(Minutes(ms)))
                 + ":" + NatToString(Seconds(ms)) + "," + Pad3(Millis(ms))
  {
    var secs := SecondsFixed(ms);
    assert Pad(secs) == secs;
    PaddedValue(Hours(ms), 2);
    PaddedValue(Minutes(ms), 2);
    CommaForPoint(Pad(NatToString(Hours(ms))), Pad(NatToString(Minutes(ms))),
                  NatToString(Seconds(ms)), Pad3(Millis(ms)));
    ReplaceFirst(Pad(NatToString(Hours(ms))) + ":" + Pad(NatToString(Minutes(ms))) + ":" + Pad(secs), '.', ',')
  }

  /** Replacing the first `.` of `hh:mm:ss.fff` touches the decimal point. */
  lemma CommaForPoint(hh: string, mm: string, ss: string, fff: string)
    requires AllDigits(hh) && AllDigits(mm) && AllDigits(ss)
    ensures ReplaceFirst(hh + ":" + mm + ":" + (ss + "." + fff), '.', ',')
            == hh + ":" + mm + ":" + ss + "," + fff
  {
    var head := hh + ":" + mm + ":" + ss;
    assert hh + ":" + mm + ":" + (ss + "." + fff) == head + ['.'] + fff;
    NoDotInFields(hh, mm, ss);
    ReplaceFirstAfter(head, '.', ',', fff);
  }

  lemma NoDotInFields(a: string, b: string, c: string)
    requires AllDigits(a) && AllDigits(b) && AllDigits(c)
    ensures '.' !in a + ":" + b + ":" + c
  {
    var s := a + ":" + b + ":" + c;
    forall k | 0 <= k < |s|
      ensures s[k] != '.'
    {
      if k < |a| {
        assert s[k] == a[k];
      } else if k == |a| || k == |a| + 1 + |b| {
      } else if k < |a| + 1 + |b| {
        assert s[k] == b[k - |a| - 1];
      } else {
        assert s[k] == c[k - |a| - |b| - 2];
      }
    }
  }

  /** The timecode SubRip prescribes: at least two hour digits, then
      `:MM:SS,mmm` with fixed widths. */
  predicate SrtTimecode(s: string)
  {
    && |s| >= 12
    && s[|s| - 10] == ':' && s[|s| - 7] == ':' && s[|s| - 4] == ','
    && forall k :: 0 <= k < |s| && k != |s| - 10 && k != |s| - 7 && k != |s| - 4 ==> IsDigit(s[k])
  }

  /** The corrected formatter: the seconds padded to two digits like the
      other fields. */
  function FormatTimeSrt(ms: nat): (r: string)
    ensures SrtTimecode(r)
  {
    TimeFields(ms);
    PaddedValue(Hours(ms), 2);
    PadShape(Minutes(ms), 2);
    PadShape(Seconds(ms), 2);
    PadShape(Millis(ms), 3);
    Timecode(Pad(NatToString(Hours(ms))), Pad(NatToString(Minutes(ms))),
             Pad(NatToString(Seconds(ms))), Pad3(Millis(ms)))
  }

  /** A number below `10^width`, for widths 2 and 3, padded to `width`
      digits. */
  lemma PadShape(n: nat, width: nat)
    requires width == 2 || width == 3
    requires width == 2 ==> n < 100
    requires n < 1000
    ensures AllDigits(PadStart(NatToString(n), width, '0'))
    ensures |PadStart(NatToString(n), width, '0')| == width
  {
    PaddedValue(n, width);
  }

  /** `hh:mm:ss,fff` from its four fields. */
  function Timecode(hh: string, mm: string, ss: string, fff: string): (r: string)
    requires AllDigits(hh) && AllDigits(mm) && AllDigits(ss) && AllDigits(fff)
    requires |hh| >= 2 && |mm| == 2 && |ss| == 2 && |fff| == 3
    ensures SrtTimecode(r)
  {
    TimecodeShape(hh, mm, ss, fff);
    hh + ":" + mm + ":" + ss + "," + fff
  }

  lemma TimecodeShape(a: string, b: string, c: string, d: string)
    requires AllDigits(a) && AllDigits(b) && AllDigits(c) && AllDigits(d)
    requires |a| >= 2 && |b| == 2 && |c| == 2 && |d| == 3
    ensures SrtTimecode(a + ":" + b + ":" + c + "," + d)
  {
    var s := a + ":" + b + ":" + c + "," + d;
    forall k | 0 <= k < |s| && k != |s| - 10 && k != |s| - 7 && k != |s| - 4
      ensures IsDigit(s[k])
    {
      if k < |a| {
        assert s[k] == a[k];
      } else if k < |a| + 3 {
        assert s[k] == b[k - |a| - 1];
      } else if k < |a| + 6 {
        assert s[k] == c[k - |a| - 4];
      } else {
        assert s[k] == d[k - |a| - 7];
      }
    }
  }

  /** A time whose seconds field has one digit cannot be a SubRip timecode:
      the second colon is not where the format puts it. */
  lemma ShortSecondsShape(a: string, b: string, c: string, d: string)
    requires AllDigits(b)
    requires |b| == 2 && |c| == 1 && |d| == 3
    ensures !SrtTimecode(a + ":" + b + ":" + c + "," + d)
  {
    var s := a + ":" + b + ":" + c + "," + d;
    assert s[|s| - 7] == b[1];
  }

  /** The page's formatter yields a SubRip timecode exactly when the
      seconds field has two digits, i.e. for 10 to 59 seconds into the
      minute. */
  lemma FormatTimeConformsIff(ms: nat)
    ensures SrtTimecode(FormatTime(ms)) <==> Seconds(ms) >= 10
  {
    var hh := Pad(NatToString(Hours(ms)));
    var mm := Pad(NatToString(Minutes(ms)));
    var ss := NatToString(Seconds(ms));
    var fff := Pad3(Millis(ms));
    TimeFields(ms);
    PaddedValue(Hours(ms), 2);
    PaddedValue(Minutes(ms), 2);
    PaddedValue(Millis(ms), 3);
    if Seconds(ms) >= 10 {
      TimecodeShape(hh, mm, ss, fff);
    } else {
      ShortSecondsShape(hh, mm, ss, fff);
    }
  }

  /** Five seconds is written `00:00:5,000` where SubRip expects `00:00:05,000`. */
  lemma FormatTimeUnpaddedSeconds()
    ensures FormatTime(5000) == "00:00:5,000"
    ensures FormatTimeSrt(5000) == "00:00:05,000"
    ensures !SrtTimecode(FormatTime(5000))
  {
    FiveSecondsPage();
    FiveSecondsSrt();
    FormatTimeConformsIff(5000);
    assert Seconds(5000) == 5 by { FieldsOfFiveSeconds(); }
  }

  /** The page's rendering of 5000 ms. */
  lemma FiveSecondsPage()
    ensures FormatTime(5000) == "00:00:5,000"
  {
    FieldsOfFiveSeconds();
    assert FormatTime(5000) == "00" + ":" + "00" + ":" + "5" + "," + "000";
  }

  /** The SubRip rendering of 5000 ms. */
  lemma FiveSecondsSrt()
    ensures FormatTimeSrt(5000) == "00:00:05,000"
  {
    FieldsOfFiveSeconds();
    assert FormatTimeSrt(5000) == "00" + ":" + "00" + ":" + "05" + "," + "000";
  }

  /** The fields of 5000 ms and their rendering. */
  lemma FieldsOfFiveSeconds()
    ensures Hours(5000) == 0 && Minutes(5000) == 0 && Seconds(5000) == 5 && Millis(5000) == 0
    ensures Pad(NatToString(0)) == "00" && Pad(NatToString(5)) == "05"
    ensures NatToString(5) == "5" && Pad3(0) == "000"
  {
    assert Hours(5000) == 0 && Minutes(5000) == 0 by {}
    assert Seconds(5000) == 5 && Millis(5000) == 0 by {}
    assert NatToString(0) == "0" by {}
    assert NatToString(5) == "5" by {}
    assert Pad(NatToString(0)) == "00" by {}
    assert Pad(NatToString(5)) == "05" by {}
    assert Pad3(0) == "000" by {}
  }

  // ---------------------------------------------------------------------
  // reading timecodes back
  // ---------------------------------------------------------------------

  /** Reads `H:M:S,f` with any number of digits per field, minutes and
      seconds below 60 and milliseconds below 1000. */
  function ParseTimecode(s: string): Option<nat>
  {
    var fields := Split(s, ':');
    if |fields| != 3 then None
    else
      var tail := Split(fields[2], ',');
      if |tail| != 2 then None
      else FieldsValue(ParseNat(fields[0]), ParseNat(fields[1]), ParseNat(tail[0]), ParseNat(tail[1]))
  }

  /** The time four read fields denote, when all are present and in range. */
  function FieldsValue(h: Option<nat>, m: Option<nat>, sec: Option<nat>, f: Option<nat>): Option<nat>
  {
    if h.Some? && m.Some? && sec.Some? && f.Some?
       && m.value < 60 && sec.value < 60 && f.value < 1000
    then Some(h.value * 3600000 + m.value * 60000 + sec.value * 1000 + f.value)
    else None
  }

  /** `a:b:c,d` splits into its four digit fields. */
  lemma SplitFields(a: string, b: string, c: string, d: string)
    requires AllDigits(a) && AllDigits(b) && AllDigits(c) && AllDigits(d)
    ensures Split(a + ":" + b + ":" + c + "," + d, ':') == [a, b, c + "," + d]
    ensures Split(c + "," + d, ',') == [c, d]
  {
    var tail := c + "," + d;
    DigitsExclude(a);
    DigitsExclude(b);
    DigitsExclude(c);
    DigitsExclude(d);
    assert Split(tail, ',') == [c, d] by {
      assert Join([c, d], [',']) == tail by {
        assert [c, d][1..] == [d];
      }
      SplitJoin([c, d], ',');
    }
    assert ':' !in tail by {
      assert forall k :: 0 <= k < |tail| ==> tail[k] == ',' || IsDigit(tail[k]);
    }
    JoinFields(a, b, c, d);
    SplitJoin([a, b, tail], ':');
  }

  lemma JoinFields(a: string, b: string, c: string, d: string)
    ensures Join([a, b, c + "," + d], [':']) == a + ":" + b + ":" + c + "," + d
  {
    var tail := c + "," + d;
    assert [a, b, tail][1..] == [b, tail];
    assert [b, tail][1..] == [tail];
    assert Join([b, tail], [':']) == b + ":" + tail;
    assert Join([a, b, tail], [':']) == a + ":" + (b + ":" + tail);
  }

  lemma ParseFields(a: string, b: string, c: string, d: string, ms: nat)
    requires |a| > 0 && |b| > 0 && |c| > 0 && |d| > 0
    requires AllDigits(a) && AllDigits(b) && AllDigits(c) && AllDigits(d)
    requires DigitsValue(a) == Hours(ms) && DigitsValue(b) == Minutes(ms)
    requires DigitsValue(c) == Seconds(ms) && DigitsValue(d) == Millis(ms)
    ensures ParseTimecode(a + ":" + b + ":" + c + "," + d) == Some(ms)
  {
    var s := a + ":" + b + ":" + c + "," + d;
    SplitFields(a, b, c, d);
    assert ParseTimecode(s) == FieldsValue(ParseNat(a), ParseNat(b), ParseNat(c), ParseNat(d));
    assert ParseNat(a) == Some(Hours(ms)) && ParseNat(b) == Some(Minutes(ms));
    assert ParseNat(c) == Some(Seconds(ms)) && ParseNat(d) == Some(Millis(ms));
    FieldsOfTime(ms);
  }

  lemma FieldsOfTime(ms: nat)
    ensures FieldsValue(Some(Hours(ms)), Some(Minutes(ms)), Some(Seconds(ms)), Some(Millis(ms))) == Some(ms)
  {
    TimeFields(ms);
  }

  /** The page's timestamps read back to the same millisecond count. */
  lemma FormatTimeRoundTrip(ms: nat)
    ensures ParseTimecode(FormatTime(ms)) == Some(ms)
  {
    PaddedValue(Hours(ms), 2);
    PaddedValue(Minutes(ms), 2);
    PaddedValue(Millis(ms), 3);
    NatToStringValue(Seconds(ms));
    ParseFields(Pad(NatToString(Hours(ms))), Pad(NatToString(Minutes(ms))),
                NatToString(Seconds(ms)), Pad3(Millis(ms)), ms);
  }

  /** The corrected timestamps read back to the same millisecond count. */
  lemma FormatTimeSrtRoundTrip(ms: nat)
    ensures ParseTimecode(FormatTimeSrt(ms)) == Some(ms)
  {
    PaddedValue(Hours(ms), 2);
    PaddedValue(Minutes(ms), 2);
    PaddedValue(Seconds(ms), 2);
    PaddedValue(Millis(ms), 3);
    ParseFields(Pad(NatToString(Hours(ms))), Pad(NatToString(Minutes(ms))),
                Pad(NatToString(Seconds(ms))), Pad3(Millis(ms)), ms);
  }

  // ---------------------------------------------------------------------
  // the .srt text
  // ---------------------------------------------------------------------

  /** The separator between the two timecodes of a block. */
  const Arrow: string := " --> "

  /** The time line of a block. */
  function TimeRange(segment: Compared, fmt: nat -> string): string
  {
    fmt(segment.start) + Arrow + fmt(segment.end)
  }

  /** `${index + 1}\n${startTime} --> ${endTime}\n${segment.editedText}\n`. */
  function Block(index: nat, segment: Compared, fmt: nat -> string): string
  {
    NatToString(index + 1) + "\n" + TimeRange(segment, fmt) + "\n" + segment.editedText + "\n"
  }

  function Blocks(segments: seq<Compared>, fmt: nat -> string): (r: seq<string>)
    ensures |r| == |segments|
    ensures forall i :: 0 <= i < |segments| ==> r[i] == Block(i, segments[i], fmt)
  {
    seq(|segments|, i requires 0 <= i < |segments| => Block(i, segments[i], fmt))
  }

  /** The blocks joined by `'\n'`. Since each block is its number, time
      line, text and an empty line joined by `'\n'`, the file is those
      lines, four per segment, joined by `'\n'`. */
  function SrtText(segments: seq<Compared>, fmt: nat -> string): (r: string)
    ensures r == Join(Flatten(SrtLineBlocks(segments, fmt)), "\n")
  {
    var xss := SrtLineBlocks(segments, fmt);
    forall i | 0 <= i < |segments|
      ensures Join(xss[i], "\n") == Block(i, segments[i], fmt)
    {
      BlockJoin(NatToString(i + 1), TimeRange(segments[i], fmt), segments[i].editedText);
    }
    assert JoinEach(xss, "\n") == Blocks(segments, fmt);
    JoinFlatten(xss, "\n");
    Join(Blocks(segments, fmt), "\n")
  }

  /** `generateSRTFile`: no file for an empty list, otherwise the blocks
      with the page's timestamps. */
  function GenerateSrtFile(segments: seq<Compared>): (r: Option<string>)
    ensures r.None? <==> |segments| == 0
    ensures r.Some? ==> r.value == SrtText(segments, FormatTime)
  {
    if |segments| == 0 then None else Some(SrtText(segments, FormatTime))
  }

  /** Only the times and the edited text reach the file: two lists that
      agree on those give the same text, whatever their other fields hold. */
  lemma SrtIgnoresOtherFields(a: seq<Compared>, b: seq<Compared>, fmt: nat -> string)
    requires |a| == |b|
    requires forall i :: 0 <= i < |a| ==>
      a[i].start == b[i].start && a[i].end == b[i].end && a[i].editedText == b[i].editedText
    ensures SrtText(a, fmt) == SrtText(b, fmt)
  {
    assert Blocks(a, fmt) == Blocks(b, fmt);
  }

  /** The lines of the file, four per segment. */
  function SrtLineBlocks(segments: seq<Compared>, fmt: nat -> string): (r: seq<seq<string>>)
    ensures |r| == |segments|
    ensures forall i :: 0 <= i < |segments| ==>
      r[i] == [NatToString(i + 1), TimeRange(segments[i], fmt), segments[i].editedText, ""]
  {
    seq(|segments|, i requires 0 <= i < |segments| =>
      [NatToString(i + 1), TimeRange(segments[i], fmt), segments[i].editedText, ""])
  }

  /** A block is its four lines joined by `'\n'`. */
  lemma BlockJoin(n: string, range: string, text: string)
    ensures Join([n, range, text, ""], "\n") == n + "\n" + range + "\n" + text + "\n"
  {
    var l := [n, range, text, ""];
    assert l[1..] == [range, text, ""];
    assert l[1..][1..] == [text, ""];
    assert l[1..][1..][1..] == [""];
    assert Join(l[1..][1..], "\n") == text + "\n" + "";
    assert Join(l[1..], "\n") == range + "\n" + (text + "\n" + "");
    assert Join(l, "\n") == n + "\n" + (range + "\n" + (text + "\n" + ""));
  }

  lemma LinesHaveNoBreak(segments: seq<Compared>, fmt: nat -> string)
    requires forall i :: 0 <= i < |segments| ==> '\n' !in segments[i].editedText
    requires forall ms: nat :: '\n' !in fmt(ms)
    ensures forall k :: 0 <= k < |Flatten(SrtLineBlocks(segments, fmt))| ==>
      '\n' !in Flatten(SrtLineBlocks(segments, fmt))[k]
  {
    var xss := SrtLineBlocks(segments, fmt);
    var lines := Flatten(xss);
    FlattenQuadsLength(xss);
    forall k | 0 <= k < |lines|
      ensures '\n' !in lines[k]
    {
      var i, j := k / 4, k % 4;
      FlattenQuads(xss, i, j);
      NoNewlineInNumber(i + 1);
      NoNewlineInRange(fmt(segments[i].start), fmt(segments[i].end));
    }
  }

  /** Reading the file line by line gives back, for segment `i`, its number
      `i + 1`, its time line, its edited text and a blank line: four lines
      per segment and nothing else (for newline-free texts and timestamps). */
  lemma SrtLines(segments: seq<Compared>, fmt: nat -> string)
    requires |segments| > 0
    requires forall i :: 0 <= i < |segments| ==> '\n' !in segments[i].editedText
    requires forall ms: nat :: '\n' !in fmt(ms)
    ensures |Split(SrtText(segments, fmt), '\n')| == 4 * |segments|
    ensures forall i :: 0 <= i < |segments| ==>
      && Split(SrtText(segments, fmt), '\n')[4 * i] == NatToString(i + 1)
      && Split(SrtText(segments, fmt), '\n')[4 * i + 1] == TimeRange(segments[i], fmt)
      && Split(SrtText(segments, fmt), '\n')[4 * i + 2] == segments[i].editedText
      && Split(SrtText(segments, fmt), '\n')[4 * i + 3] == ""
  {
    var xss := SrtLineBlocks(segments, fmt);
    var lines := Flatten(xss);
    LinesHaveNoBreak(segments, fmt);
    FlattenQuadsLength(xss);
    SplitJoin(lines, '\n');
    assert Split(SrtText(segments, fmt), '\n') == lines;
    forall i | 0 <= i < |segments|
      ensures lines[4 * i] == NatToString(i + 1)
      ensures lines[4 * i + 1] == TimeRange(segments[i], fmt)
      ensures lines[4 * i + 2] == segments[i].editedText
      ensures lines[4 * i + 3] == ""
    {
      SrtLinesOf(segments, fmt, i);
    }
  }

  /** The four lines segment `i` contributes to the flattened lines. */
  lemma SrtLinesOf(segments: seq<Compared>, fmt: nat -> string, i: nat)
    requires i < |segments|
    ensures |Flatten(SrtLineBlocks(segments, fmt))| == 4 * |segments|
    ensures Flatten(SrtLineBlocks(segments, fmt))[4 * i] == NatToString(i + 1)
    ensures Flatten(SrtLineBlocks(segments, fmt))[4 * i + 1] == TimeRange(segments[i], fmt)
    ensures Flatten(SrtLineBlocks(segments, fmt))[4 * i + 2] == segments[i].editedText
    ensures Flatten(SrtLineBlocks(segments, fmt))[4 * i + 3] == ""
  {
    var xss := SrtLineBlocks(segments, fmt);
    FlattenQuads(xss, i, 0);
    FlattenQuads(xss, i, 1);
    FlattenQuads(xss, i, 2);
    FlattenQuads(xss, i, 3);
  }

  lemma NoNewlineInNumber(n: nat)
    ensures '\n' !in NatToString(n)
  {
    var s := NatToString(n);
    assert forall k :: 0 <= k < |s| ==> IsDigit(s[k]);
  }

  lemma NoNewlineInRange(a: string, b: string)
    requires '\n' !in a && '\n' !in b
    ensures '\n' !in a + Arrow + b
  {
    var s := a + Arrow + b;
    forall k | 0 <= k < |s|
      ensures s[k] != '\n'
    {
      if k < |a| {
        assert s[k] == a[k];
      } else if k >= |a| + 5 {
        assert s[k] == b[k - |a| - 5];
      }
    }
  }

  /** Reads `start --> end` back into two millisecond counts. */
  function ParseTimeRange(line: string): Option<(nat, nat)>
  {
    var i := IndexOf(line, ' ');
    if i + |Arrow| <= |line| && line[i..i + |Arrow|] == Arrow then
      match (ParseTimecode(line[..i]), ParseTimecode(line[i + |Arrow|..]))
      case (Some(a), Some(b)) => Some((a, b))
      case _ => None
    else None
  }

  /** A time line of two space-free timecodes splits at the first space. */
  lemma RangeParts(a: string, b: string)
    requires ' ' !in a
    ensures IndexOf(a + Arrow + b, ' ') == |a|
    ensures (a + Arrow + b)[..|a|] == a
    ensures (a + Arrow + b)[|a|..|a| + |Arrow|] == Arrow
    ensures (a + Arrow + b)[|a| + |Arrow|..] == b
  {
    assert a + Arrow + b == a + [' '] + ("--> " + b);
    IndexOfAfter(a, ' ', "--> " + b);
  }

  /** A formatter whose timestamps hold no space or line break and read
      back to the time they show. */
  ghost predicate ReadableTimes(fmt: nat -> string)
  {
    forall ms: nat :: ' ' !in fmt(ms) && '\n' !in fmt(ms) && ParseTimecode(fmt(ms)) == Some(ms)
  }

  /** The page's formatter is readable, although its output is not always
      a SubRip timecode. */
  lemma FormatTimeReadable()
    ensures ReadableTimes(FormatTime)
  {
    forall ms: nat
      ensures ' ' !in FormatTime(ms) && '\n' !in FormatTime(ms) && ParseTimecode(FormatTime(ms)) == Some(ms)
    {
      PaddedValue(Hours(ms), 2);
      PaddedValue(Minutes(ms), 2);
      PaddedValue(Millis(ms), 3);
      FieldsNoSpace(Pad(NatToString(Hours(ms))), Pad(NatToString(Minutes(ms))),
                    NatToString(Seconds(ms)), Pad3(Millis(ms)));
      FormatTimeRoundTrip(ms);
    }
  }

  /** The corrected formatter is readable. */
  lemma FormatTimeSrtReadable()
    ensures ReadableTimes(FormatTimeSrt)
  {
    forall ms: nat
      ensures ' ' !in FormatTimeSrt(ms) && '\n' !in FormatTimeSrt(ms)
        && ParseTimecode(FormatTimeSrt(ms)) == Some(ms)
    {
      TimecodeNoBreak(FormatTimeSrt(ms));
      FormatTimeSrtRoundTrip(ms);
    }
  }

  /** Four digit fields with their separators hold no space or line break. */
  lemma FieldsNoSpace(a: string, b: string, c: string, d: string)
    requires AllDigits(a) && AllDigits(b) && AllDigits(c) && AllDigits(d)
    ensures ' ' !in a + ":" + b + ":" + c + "," + d && '\n' !in a + ":" + b + ":" + c + "," + d
  {
    var s := a + ":" + b + ":" + c + "," + d;
    forall k | 0 <= k < |s|
      ensures s[k] != ' ' && s[k] != '\n'
    {
      if k < |a| {
        assert s[k] == a[k];
      } else if k == |a| || k == |a| + 1 + |b| || k == |a| + |b| + |c| + 2 {
      } else if k < |a| + 1 + |b| {
        assert s[k] == b[k - |a| - 1];
      } else if k < |a| + |b| + |c| + 2 {
        assert s[k] == c[k - |a| - |b| - 2];
      } else {
        assert s[k] == d[k - |a| - |b| - |c| - 3];
      }
    }
  }

  /** A time line written with a readable formatter reads back to the two
      times it shows. */
  lemma TimeRangeRoundTrip(fmt: nat -> string, x: nat, y: nat)
    requires ReadableTimes(fmt)
    ensures ParseTimeRange(fmt(x) + Arrow + fmt(y)) == Some((x, y))
  {
    RangeParts(fmt(x), fmt(y));
  }

  /** With a readable formatter, the time line of every block reads back to
      the segment's exact start and end. */
  lemma SrtTimesRoundTrip(segments: seq<Compared>, fmt: nat -> string)
    requires |segments| > 0
    requires forall i :: 0 <= i < |segments| ==> '\n' !in segments[i].editedText
    requires ReadableTimes(fmt)
    ensures |Split(SrtText(segments, fmt), '\n')| == 4 * |segments|
    ensures forall i :: 0 <= i < |segments| ==>
      ParseTimeRange(Split(SrtText(segments, fmt), '\n')[4 * i + 1])
        == Some((segments[i].start, segments[i].end))
  {
    SrtLines(segments, fmt);
    forall i | 0 <= i < |segments|
      ensures ParseTimeRange(TimeRange(segments[i], fmt))
                == Some((segments[i].start, segments[i].end))
    {
      TimeRangeRoundTrip(fmt, segments[i].start, segments[i].end);
    }
  }

  /** The page's file and the corrected file both give back every
      segment's times on the second line of its block. */
  lemma SrtFileTimesReadBack(segments: seq<Compared>)
    requires |segments| > 0
    requires forall i :: 0 <= i < |segments| ==> '\n' !in segments[i].editedText
    ensures GenerateSrtFile(segments).Some?
    ensures |Split(GenerateSrtFile(segments).value, '\n')| == 4 * |segments|
    ensures |Split(SrtText(segments, FormatTimeSrt), '\n')| == 4 * |segments|
    ensures forall i :: 0 <= i < |segments| ==>
      ParseTimeRange(Split(GenerateSrtFile(segments).value, '\n')[4 * i + 1])
        == Some((segments[i].start, segments[i].end))
    ensures forall i :: 0 <= i < |segments| ==>
      ParseTimeRange(Split(SrtText(segments, FormatTimeSrt), '\n')[4 * i + 1])
        == Some((segments[i].start, segments[i].end))
  {
    FormatTimeReadable();
    FormatTimeSrtReadable();
    SrtTimesRoundTrip(segments, FormatTime);
    SrtTimesRoundTrip(segments, FormatTimeSrt);
  }

  lemma TimecodeNoBreak(s: string)
    requires SrtTimecode(s)
    ensures '\n' !in s && ' ' !in s
  {
    forall k | 0 <= k < |s|
      ensures s[k] != '\n' && s[k] != ' '
    {
    }
  }
}
