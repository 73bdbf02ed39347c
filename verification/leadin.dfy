/** The script setup page (`src/app/script/page.tsx`): element times in
    seconds become frame numbers, each start pulled back by a 40-frame
    lead-in that never goes below frame 0, and the elements are numbered. */
module LeadIn {

  import opened Base

  /** One parsed element. `rest` stands for every field other than `start`
      and `stop`, which the spread copies through untouched. */
  datatype Element<X> = Element(start: real, stop: real, rest: X)

  /** An adjusted element: frame numbers and the image number added by the
      page. */
  datatype Adjusted<X> = Adjusted(start: int, stop: int, rest: X, imageNumber: nat)

  /** The frames each start is pulled back by. */
  const LeadInFrames: int := 40

  /** The default `fps` argument of `adjustStartTimes`. */
  const DefaultFps: nat := 24

  /** `Math.floor(seconds * fps)`. */
  function FloorFrame(seconds: real, fps: nat): (r: int)
    ensures r as real <= seconds * fps as real < r as real + 1.0
  {
    Floor(seconds * fps as real)
  }

  /** The start frame: pulled back by the lead-in when at least 40, and
      clamped to 0 otherwise. */
  function LeadInStart(frame: int): (r: int)
    ensures r == Max(frame - LeadInFrames, 0)
  {
    if frame >= 40 then frame - 40 else 0
  }

  /** `adjustStartTimes`: same length and order, starts floored and pulled
      back, stops floored and not shifted, other fields kept, images
      numbered from 1. */
  function AdjustStartTimes<X>(elements: seq<Element<X>>, fps: nat): (r: seq<Adjusted<X>>)
    ensures |r| == |elements|
    ensures forall i :: 0 <= i < |elements| ==>
      && r[i].start == Max(FloorFrame(elements[i].start, fps) - LeadInFrames, 0)
      && r[i].stop == FloorFrame(elements[i].stop, fps)
      && r[i].rest == elements[i].rest
      && r[i].imageNumber == i + 1
    ensures forall i :: 0 <= i < |r| ==>
      && 0 <= r[i].start <= Max(FloorFrame(elements[i].start, fps), 0)
      && FloorFrame(elements[i].start, fps) - r[i].start <= LeadInFrames
  {
    seq(|elements|, i requires 0 <= i < |elements| =>
      Adjusted(LeadInStart(FloorFrame(elements[i].start, fps)),
               FloorFrame(elements[i].stop, fps),
               elements[i].rest,
               i + 1))
  }

  lemma FloorFrameMonotone(x: real, y: real, fps: nat)
    requires x <= y
    ensures FloorFrame(x, fps) <= FloorFrame(y, fps)
  {
    ScaleMonotone(x, y, fps);
    FloorMonotone(x * fps as real, y * fps as real);
  }

  /** The adjustment keeps the order of the times: elements that start (or
      stop) in order still do so in frames, and an element that starts no
      later than it stops still does after the lead-in. */
  lemma AdjustKeepsOrder<X>(elements: seq<Element<X>>, fps: nat, i: nat, j: nat)
    requires i < |elements| && j < |elements|
    ensures var r := AdjustStartTimes(elements, fps);
      && (elements[i].start <= elements[j].start ==> r[i].start <= r[j].start)
      && (elements[i].stop <= elements[j].stop ==> r[i].stop <= r[j].stop)
      && (elements[i].start <= elements[i].stop && elements[i].stop >= 0.0 ==> r[i].start <= r[i].stop)
  {
    if elements[i].start <= elements[j].start {
      FloorFrameMonotone(elements[i].start, elements[j].start, fps);
    }
    if elements[i].stop <= elements[j].stop {
      FloorFrameMonotone(elements[i].stop, elements[j].stop, fps);
    }
    if elements[i].start <= elements[i].stop {
      FloorFrameMonotone(elements[i].start, elements[i].stop, fps);
    }
    if elements[i].stop >= 0.0 {
      FloorFrameMonotone(0.0, elements[i].stop, fps);
    }
  }

  // ---------------------------------------------------------------------
  // handleSubmit
  // ---------------------------------------------------------------------

  /** The pasted text after `JSON.parse`. */
  datatype Input<X> = Malformed | Parsed(elements: seq<Element<X>>)

  /** The page's `data` state after a submit, and whether it alerted. */
  datatype Submitted<X> = Submitted(data: Option<seq<Adjusted<X>>>, alerted: bool)

  /** `handleSubmit`: a malformed input alerts and keeps `data`; otherwise
      `data` becomes the adjusted elements at the default 24 fps, whatever
      the page's FPS field says. */
  function HandleSubmit<X>(data: Option<seq<Adjusted<X>>>, input: Input<X>, fpsField: nat): (r: Submitted<X>)
    ensures r.alerted <==> input.Malformed?
    ensures input.Malformed? ==> r.data == data
    ensures input.Parsed? ==> r.data == Some(AdjustStartTimes(input.elements, DefaultFps))
  {
    match input
    case Malformed => Submitted(data, true)
    case Parsed(elements) => Submitted(Some(AdjustStartTimes(elements, DefaultFps)), false)
  }
}
