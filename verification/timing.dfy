/** The timing calculator page (`src/app/page.tsx`): Whisper segments are
    gathered, left to right, into one group per image, each group closing
    as soon as its span reaches an even share of the total duration, and
    the groups' times are converted to frame numbers.

    Seconds are exact reals; `Math.ceil` is `Base.Ceil`. */
module Timing {

  import opened Base
  import opened Text

  /** A transcription segment as the calculator reads it. Times are exact
      seconds because the page multiplies them by the frame rate and rounds
      up; the editor only prints them, so `Transcript.Segment` keeps whole
      milliseconds. */
  datatype Segment = Segment(start: real, end: real, text: string)

  /** One entry of `imageSegments`. */
  datatype ImageSegment = ImageSegment(start: real, end: real, text: string, duration: real)

  /** One entry of `imageTimings`. */
  datatype ImageTiming = ImageTiming(
    imageNumber: nat,
    startFrame: int,
    endFrame: int,
    durationSeconds: real,
    text: string)

  /** The object `calculateTimings` returns. */
  datatype Calculations = Calculations(
    totalDuration: real,
    totalFrames: int,
    numberOfImages: nat,
    imageTimings: seq<ImageTiming>,
    fps: nat,
    transitionFrames: int)

  /** The page's fixed `fps` and `transitionFrames` state. */
  const PageFps: nat := 24
  const PageTransitionFrames: int := 24

  // ---------------------------------------------------------------------
  // grouping
  // ---------------------------------------------------------------------

  /** `segment.end - currentGroup[0].start` once the group's last member
      has been pushed. */
  function Span(group: seq<Segment>): real
    requires |group| > 0
  {
    group[|group| - 1].end - group[0].start
  }

  /** No proper non-empty prefix of the group reaches the threshold: the
      loop would have closed the group earlier otherwise. */
  predicate StaysOpen(group: seq<Segment>, threshold: real)
  {
    forall j :: 1 <= j < |group| ==> Span(group[..j]) < threshold
  }

  /** `groups` is what the page's loop produces: the groups are non-empty,
      concatenate back to the segments, none closes early, and every group
      but the last reaches the threshold (the last may instead be closed by
      reaching the last index). */
  predicate GreedyPartition(segs: seq<Segment>, threshold: real, groups: seq<seq<Segment>>)
  {
    && Flatten(groups) == segs
    && (forall g :: 0 <= g < |groups| ==> |groups[g]| > 0 && StaysOpen(groups[g], threshold))
    && (forall g :: 0 <= g < |groups| - 1 ==> Span(groups[g]) >= threshold)
  }

  /** The length of the first group: the shortest prefix of at least `k`
      segments that reaches the threshold, or all of them. */
  function FirstGroupLength(segs: seq<Segment>, threshold: real, k: nat): (r: nat)
    requires 1 <= k <= |segs|
    ensures k <= r <= |segs|
    ensures r == |segs| || Span(segs[..r]) >= threshold
    ensures forall j :: k <= j < r ==> Span(segs[..j]) < threshold
    decreases |segs| - k
  {
    if Span(segs[..k]) >= threshold || k == |segs| then k
    else FirstGroupLength(segs, threshold, k + 1)
  }

  /** The `forEach` loop of `calculateTimings`: push each segment, close the
      group when its span reaches the threshold or at the last index. */
  function Groups(segs: seq<Segment>, threshold: real): (r: seq<seq<Segment>>)
    ensures GreedyPartition(segs, threshold, r)
    ensures |r| <= |segs|
    ensures |segs| > 0 ==> |r| >= 1
    decreases |segs|
  {
    if |segs| == 0 then []
    else
      var k := FirstGroupLength(segs, threshold, 1);
      var rest := Groups(segs[k..], threshold);
      ConsPartition(segs, threshold, k, rest);
      [segs[..k]] + rest
  }

  /** A first group that closes where the loop closes it, in front of a
      greedy partition of the remaining segments, is a greedy partition. */
  lemma ConsPartition(segs: seq<Segment>, threshold: real, k: nat, rest: seq<seq<Segment>>)
    requires 1 <= k <= |segs|
    requires k == |segs| || Span(segs[..k]) >= threshold
    requires forall j :: 1 <= j < k ==> Span(segs[..j]) < threshold
    requires GreedyPartition(segs[k..], threshold, rest)
    ensures GreedyPartition(segs, threshold, [segs[..k]] + rest)
  {
    var first := segs[..k];
    var r := [first] + rest;
    FlattenEmptyIff(rest);
    assert r[1..] == rest;
    assert Flatten(r) == segs by {
      assert segs == first + segs[k..];
    }
    assert StaysOpen(first, threshold) by {
      forall j | 1 <= j < k ensures Span(first[..j]) < threshold {
        assert first[..j] == segs[..j];
      }
    }
    forall g | 1 <= g < |r| ensures r[g] == rest[g - 1] { }
  }

  // ---------------------------------------------------------------------
  // uniqueness of the partition
  // ---------------------------------------------------------------------

  lemma {:induction false} FlattenEmptyIff(groups: seq<seq<Segment>>)
    requires forall g :: 0 <= g < |groups| ==> |groups[g]| > 0
    ensures Flatten(groups) == [] <==> |groups| == 0
  {
    if |groups| > 0 {
      assert |Flatten(groups)| >= |groups[0]|;
    }
  }

  /** The first group of a greedy partition is a prefix of the segments and
      the remaining groups partition the rest. */
  lemma PartitionHead(segs: seq<Segment>, threshold: real, groups: seq<seq<Segment>>)
    requires GreedyPartition(segs, threshold, groups)
    requires |groups| > 0
    ensures |groups[0]| <= |segs| && segs[..|groups[0]|] == groups[0]
    ensures GreedyPartition(segs[|groups[0]|..], threshold, groups[1..])
    ensures |groups| > 1 ==> |groups[0]| < |segs|
    ensures |groups| == 1 ==> |groups[0]| == |segs|
  {
    var n := |groups[0]|;
    assert segs == groups[0] + Flatten(groups[1..]);
    assert segs[n..] == Flatten(groups[1..]);
    FlattenEmptyIff(groups[1..]);
  }

  /** Two greedy partitions cannot start with groups of different lengths:
      the shorter first group would reach the threshold inside the longer
      one, which stays open there. */
  lemma FirstGroupsAgree(segs: seq<Segment>, threshold: real, a: seq<seq<Segment>>, b: seq<seq<Segment>>)
    requires GreedyPartition(segs, threshold, a) && GreedyPartition(segs, threshold, b)
    requires |a| > 0 && |b| > 0
    ensures |b[0]| <= |a[0]|
  {
    PartitionHead(segs, threshold, a);
    PartitionHead(segs, threshold, b);
    var n, m := |a[0]|, |b[0]|;
    var k := if n < m then n else m;
    assert b[0][..k] == segs[..k] == a[0][..k];
    assert a[0][..n] == a[0];
  }

  /** The loop's output is the only greedy partition. */
  lemma {:induction false} GreedyPartitionUnique(segs: seq<Segment>, threshold: real, a: seq<seq<Segment>>, b: seq<seq<Segment>>)
    requires GreedyPartition(segs, threshold, a) && GreedyPartition(segs, threshold, b)
    ensures a == b
    decreases |segs|
  {
    FlattenEmptyIff(a);
    FlattenEmptyIff(b);
    if |segs| > 0 {
      PartitionHead(segs, threshold, a);
      PartitionHead(segs, threshold, b);
      FirstGroupsAgree(segs, threshold, a, b);
      FirstGroupsAgree(segs, threshold, b, a);
      var n := |a[0]|;
      GreedyPartitionUnique(segs[n..], threshold, a[1..], b[1..]);
      assert a == [a[0]] + a[1..];
      assert b == [b[0]] + b[1..];
    }
  }

  /** A grouping is the page's grouping exactly when it is greedy. */
  lemma GroupsCharacterised(segs: seq<Segment>, threshold: real, groups: seq<seq<Segment>>)
    ensures GreedyPartition(segs, threshold, groups) <==> groups == Groups(segs, threshold)
  {
    if GreedyPartition(segs, threshold, groups) {
      GreedyPartitionUnique(segs, threshold, groups, Groups(segs, threshold));
    }
  }

  /** The last group ends with the last segment, so nothing is left pending. */
  lemma {:induction false} LastGroupHoldsLastSegment(segs: seq<Segment>, threshold: real, groups: seq<seq<Segment>>)
    requires GreedyPartition(segs, threshold, groups)
    requires |segs| > 0
    ensures |groups| > 0
    ensures groups[|groups| - 1][|groups[|groups| - 1]| - 1] == segs[|segs| - 1]
    decreases |groups|
  {
    FlattenEmptyIff(groups);
    PartitionHead(segs, threshold, groups);
    var n := |groups[0]|;
    if |groups| == 1 {
      assert segs == groups[0] + Flatten(groups[1..]);
    } else {
      LastGroupHoldsLastSegment(segs[n..], threshold, groups[1..]);
    }
  }

  // ---------------------------------------------------------------------
  // calculateTimings
  // ---------------------------------------------------------------------

  /** `Math.ceil(seconds * fps)`: the first frame at or after a time. */
  function Frame(seconds: real, fps: nat): (r: int)
    ensures seconds * fps as real <= r as real < seconds * fps as real + 1.0
  {
    Ceil(seconds * fps as real)
  }

  /** Later times never map to earlier frames. */
  lemma FrameMonotone(x: real, y: real, fps: nat)
    requires x <= y
    ensures Frame(x, fps) <= Frame(y, fps)
  {
    ScaleMonotone(x, y, fps);
    CeilMonotone(x * fps as real, y * fps as real);
  }

  /** `Math.ceil(segments.length / 2)`. */
  function RecommendedImages(n: nat): (r: int)
    requires n > 0
    ensures r >= 1 && 2 * r >= n && 2 * r <= n + 1
  {
    Ceil(n as real / 2.0)
  }

  /** `totalDuration / recommendedImages`, with `totalDuration` the last
      segment's end. */
  function Threshold(segs: seq<Segment>): real
    requires |segs| > 0
  {
    segs[|segs| - 1].end / RecommendedImages(|segs|) as real
  }

  /** The groups the page forms. */
  function ImageGroups(segs: seq<Segment>): seq<seq<Segment>>
    requires |segs| > 0
  {
    Groups(segs, Threshold(segs))
  }

  /** `seg.text` of every member. */
  function Texts(group: seq<Segment>): (r: seq<string>)
    ensures |r| == |group| && forall i :: 0 <= i < |group| ==> r[i] == group[i].text
  {
    seq(|group|, i requires 0 <= i < |group| => group[i].text)
  }

  /** `imageSegments`: one entry per group, spanning it and holding its
      texts joined by single spaces. */
  function ImageSegments(groups: seq<seq<Segment>>): (r: seq<ImageSegment>)
    requires forall g :: 0 <= g < |groups| ==> |groups[g]| > 0
    ensures |r| == |groups|
    ensures forall g :: 0 <= g < |groups| ==>
      && r[g].start == groups[g][0].start
      && r[g].end == groups[g][|groups[g]| - 1].end
      && r[g].duration == r[g].end - r[g].start
      && r[g].text == Join(Texts(groups[g]), " ")
  {
    seq(|groups|, g requires 0 <= g < |groups| =>
      ImageSegment(groups[g][0].start, groups[g][|groups[g]| - 1].end,
                   Join(Texts(groups[g]), " "), Span(groups[g])))
  }

  /** `imageTimings`: image `i` is numbered `i + 1` and its times are
      rounded up to frames. */
  function Timings(images: seq<ImageSegment>, fps: nat): (r: seq<ImageTiming>)
    ensures |r| == |images|
    ensures forall i :: 0 <= i < |images| ==>
      && r[i].imageNumber == i + 1
      && r[i].startFrame == Frame(images[i].start, fps)
      && r[i].endFrame == Frame(images[i].end, fps)
      && r[i].durationSeconds == images[i].duration
      && r[i].text == images[i].text
  {
    seq(|images|, i requires 0 <= i < |images| =>
      ImageTiming(i + 1, Frame(images[i].start, fps), Frame(images[i].end, fps),
                  images[i].duration, images[i].text))
  }

  /** `calculateTimings`. An empty list fails at `segments[-1].end`
      (`None`); otherwise one timing per group, in order. */
  function CalculateTimings(segs: seq<Segment>, fps: nat, transitionFrames: int): (r: Option<Calculations>)
    ensures r.None? <==> |segs| == 0
    ensures r.Some? ==>
      && r.value.totalDuration == segs[|segs| - 1].end
      && r.value.totalFrames == Frame(segs[|segs| - 1].end, fps)
      && r.value.numberOfImages == |r.value.imageTimings| == |ImageGroups(segs)|
      && 1 <= r.value.numberOfImages <= |segs|
      && r.value.fps == fps && r.value.transitionFrames == transitionFrames
    ensures r.Some? ==>
      var groups := ImageGroups(segs);
      forall i :: 0 <= i < |groups| ==>
        && r.value.imageTimings[i].imageNumber == i + 1
        && r.value.imageTimings[i].startFrame == Frame(groups[i][0].start, fps)
        && r.value.imageTimings[i].endFrame == Frame(groups[i][|groups[i]| - 1].end, fps)
        && r.value.imageTimings[i].durationSeconds == groups[i][|groups[i]| - 1].end - groups[i][0].start
        && r.value.imageTimings[i].text == Join(Texts(groups[i]), " ")
  {
    if |segs| == 0 then None
    else
      var totalDuration := segs[|segs| - 1].end;
      var images := ImageSegments(ImageGroups(segs));
      Some(Calculations(totalDuration, Frame(totalDuration, fps), |images|,
                        Timings(images, fps), fps, transitionFrames))
  }

  /** The groups behind the timings are the greedy partition of the
      segments: each segment in exactly one group, groups contiguous and in
      input order, the last ending with the last segment. */
  lemma CalculateTimingsPartition(segs: seq<Segment>)
    requires |segs| > 0
    ensures GreedyPartition(segs, Threshold(segs), ImageGroups(segs))
    ensures Flatten(ImageGroups(segs)) == segs
    ensures var groups := ImageGroups(segs);
      groups[|groups| - 1][|groups[|groups| - 1]| - 1] == segs[|segs| - 1]
  {
    LastGroupHoldsLastSegment(segs, Threshold(segs), ImageGroups(segs));
  }

  /** Segments in time order: each starts no later than it ends and no
      later than the ones after it. */
  predicate Ordered(segs: seq<Segment>)
  {
    && (forall i :: 0 <= i < |segs| ==> segs[i].start <= segs[i].end)
    && (forall i, j :: 0 <= i <= j < |segs| ==> segs[i].start <= segs[j].start)
  }

  lemma {:induction false} GroupsOrdered(segs: seq<Segment>, threshold: real)
    requires Ordered(segs)
    ensures forall g :: 0 <= g < |Groups(segs, threshold)| ==> Ordered(Groups(segs, threshold)[g])
    decreases |segs|
  {
    if |segs| > 0 {
      var k := FirstGroupLength(segs, threshold, 1);
      var rest := Groups(segs[k..], threshold);
      SliceOrdered(segs, k, |segs|);
      assert segs[k..|segs|] == segs[k..];
      GroupsOrdered(segs[k..], threshold);
      SliceOrdered(segs, 0, k);
      assert segs[0..k] == segs[..k];
      var r := Groups(segs, threshold);
      assert r == [segs[..k]] + rest;
      forall g | 0 <= g < |r| ensures Ordered(r[g]) {
        if g > 0 {
          assert r[g] == rest[g - 1];
        }
      }
    }
  }

  /** Any run of segments in time order is in time order. */
  lemma SliceOrdered(segs: seq<Segment>, a: nat, b: nat)
    requires Ordered(segs) && a <= b <= |segs|
    ensures Ordered(segs[a..b])
  {
    var s := segs[a..b];
    forall i, j | 0 <= i <= j < |s| ensures s[i].start <= s[j].start {
      assert s[i] == segs[a + i] && s[j] == segs[a + j];
    }
    forall i | 0 <= i < |s| ensures s[i].start <= s[i].end {
      assert s[i] == segs[a + i];
    }
  }

  /** For segments in time order every image starts no later than it ends,
      in frames as in seconds. */
  lemma FramesOrdered(segs: seq<Segment>, fps: nat, transitionFrames: int)
    requires |segs| > 0 && Ordered(segs)
    ensures var c := CalculateTimings(segs, fps, transitionFrames).value;
      forall i :: 0 <= i < |c.imageTimings| ==> c.imageTimings[i].startFrame <= c.imageTimings[i].endFrame
  {
    var groups: seq<seq<Segment>> := ImageGroups(segs);
    GroupsOrdered(segs, Threshold(segs));
    forall i: nat | i < |groups|
      ensures Frame(groups[i][0].start, fps) <= Frame(groups[i][|groups[i]| - 1].end, fps)
    {
      var g: seq<Segment> := groups[i];
      assert g[0].start <= g[|g| - 1].start <= g[|g| - 1].end;
      FrameMonotone(g[0].start, g[|g| - 1].end, fps);
    }
  }

  // ---------------------------------------------------------------------
  // handleJsonSubmit
  // ---------------------------------------------------------------------

  /** The submitted text after `JSON.parse`: unparseable, or a document
      whose `segments` field may be absent. */
  datatype JsonInput = Malformed | Parsed(segments: Option<seq<Segment>>)

  /** The page's `calculations` and `error` state. */
  datatype PageState = PageState(calculations: Option<Calculations>, error: string)

  const InvalidJson: string := "Invalid JSON format"

  /** `handleJsonSubmit`: a missing `segments` field counts as an empty list;
      a parse failure and the failure of an empty list are both caught,
      clearing the calculations and reporting the same message. */
  function HandleJsonSubmit(input: JsonInput): (r: PageState)
    ensures r.calculations.None? <==> r.error == InvalidJson
    ensures r.calculations.Some? <==>
      input.Parsed? && input.segments.Some? && |input.segments.value| > 0
    ensures r.calculations.Some? ==>
      r.error == "" && r.calculations == CalculateTimings(input.segments.value, PageFps, PageTransitionFrames)
  {
    match input
    case Malformed => PageState(None, InvalidJson)
    case Parsed(field) =>
      var segs := if field.Some? then field.value else [];
      match CalculateTimings(segs, PageFps, PageTransitionFrames)
      case None => PageState(None, InvalidJson)
      case Some(c) => PageState(Some(c), "")
  }
}
