/** The two Blender script generators: `src/components/blender_script.tsx`
    (the first version) and `src/components/blender_script_v2.tsx`. Both
    refuse empty data and derive the timeline from the first start and the
    last stop; the second also rewrites the image folder into a
    forward-slash directory path and renumbers the data. The Python text
    they fill in is not modelled: a script is the record of the values
    substituted into it. */
module Blender {

  import opened Base

  /** One data element (`ImageTiming`): frames and a prompt. */
  datatype ImageTiming = ImageTiming(start: int, stop: int, prompt: string)

  // ---------------------------------------------------------------------
  // normalizePath
  // ---------------------------------------------------------------------

  /** `path.replace(/\\/g, "/")`. */
  function ForwardSlashes(path: string): (r: string)
    ensures |r| == |path|
    ensures forall k :: 0 <= k < |path| ==> r[k] == (if path[k] == '\\' then '/' else path[k])
  {
    seq(|path|, k requires 0 <= k < |path| => if path[k] == '\\' then '/' else path[k])
  }

  predicate EndsWithSlash(s: string)
  {
    |s| > 0 && s[|s| - 1] == '/'
  }

  /** `normalizePath`: every backslash becomes a slash, and a slash is
      appended unless the result already ends with one. */
  function NormalizePath(path: string): (r: string)
    ensures '\\' !in r
    ensures EndsWithSlash(r)
    ensures |r| == |path| || |r| == |path| + 1
    ensures r[..|path|] == ForwardSlashes(path)
    ensures |r| == |path| + 1 <==> !EndsWithSlash(ForwardSlashes(path))
  {
    var n := ForwardSlashes(path);
    assert '\\' !in n by {
      forall k | 0 <= k < |n| ensures n[k] != '\\' { }
    }
    if EndsWithSlash(n) then n else n + "/"
  }

  /** Normalising twice is normalising once. */
  lemma NormalizePathIdempotent(path: string)
    ensures NormalizePath(NormalizePath(path)) == NormalizePath(path)
  {
    var r := NormalizePath(path);
    NormalizePathFixedPoint(r);
  }

  /** The paths `normalizePath` returns unchanged are exactly those with no
      backslash that already end in a slash. */
  lemma NormalizePathFixedPoint(path: string)
    ensures NormalizePath(path) == path <==> '\\' !in path && EndsWithSlash(path)
  {
    if '\\' !in path {
      assert ForwardSlashes(path) == path;
    }
  }

  // ---------------------------------------------------------------------
  // the timeline both versions set up
  // ---------------------------------------------------------------------

  /** `render.fps`, `frame_start` and `frame_end`. */
  datatype Timeline = Timeline(fps: int, frameStart: int, frameEnd: int)

  /** The frames of the whole timeline: from the first element's start to
      the last element's stop, written as the difference that both
      versions pass as the end frame. */
  function TotalFrames(data: seq<ImageTiming>): (r: int)
    requires |data| > 0
    ensures data[0].start + r == data[|data| - 1].stop
  {
    data[|data| - 1].stop - data[0].start
  }

  // ---------------------------------------------------------------------
  // the first version
  // ---------------------------------------------------------------------

  datatype ScriptV1 = NoScriptV1 | ScriptV1(timeline: Timeline, imageTimings: seq<ImageTiming>, imageFolder: string)

  /** `generateBlenderScript` of the first version: the empty string for
      absent or empty data; otherwise the timeline at `fps` starting at the
      first start, the data embedded as it is, and the folder as given. */
  function GenerateV1(data: Option<seq<ImageTiming>>, fps: int, imageFolder: string): (r: ScriptV1)
    ensures r.NoScriptV1? <==> data.None? || |data.value| == 0
    ensures r.ScriptV1? ==>
      && r.timeline.fps == fps
      && r.timeline.frameStart == data.value[0].start
      && r.timeline.frameStart + r.timeline.frameEnd == data.value[|data.value| - 1].stop
      && r.imageTimings == data.value
      && r.imageFolder == imageFolder
  {
    if data.None? || |data.value| == 0 then NoScriptV1
    else
      var d := data.value;
      ScriptV1(Timeline(fps, d[0].start, TotalFrames(d)), d, imageFolder)
  }

  // ---------------------------------------------------------------------
  // the second version
  // ---------------------------------------------------------------------

  /** One entry of `someData`. */
  datatype Numbered = Numbered(start: int, stop: int, prompt: string, imageNumber: nat)

  /** `someData`: times copied, prompts cleared, images numbered from 1. */
  function SomeData(data: seq<ImageTiming>): (r: seq<Numbered>)
    ensures |r| == |data|
    ensures forall i :: 0 <= i < |data| ==>
      && r[i].start == data[i].start
      && r[i].stop == data[i].stop
      && r[i].prompt == ""
      && r[i].imageNumber == i + 1
  {
    seq(|data|, i requires 0 <= i < |data| => Numbered(data[i].start, data[i].stop, "", i + 1))
  }

  datatype ScriptV2 = NoScriptV2 | ScriptV2(timeline: Timeline, someData: seq<Numbered>, imageFolder: string)

  /** `generateBlenderScript` of the second version. `data[0]?.start || 0`
      is the start itself for a number (0 stays 0), so the range is the
      first start and the last stop. */
  function GenerateV2(data: Option<seq<ImageTiming>>, fps: int, imageFolder: string): (r: ScriptV2)
    ensures r.NoScriptV2? <==> data.None? || |data.value| == 0
    ensures r.ScriptV2? ==>
      && r.timeline.fps == fps
      && r.timeline.frameStart == data.value[0].start
      && r.timeline.frameStart + r.timeline.frameEnd == data.value[|data.value| - 1].stop
      && r.someData == SomeData(data.value)
      && r.imageFolder == NormalizePath(imageFolder)
      && |r.someData| == |data.value|
      && '\\' !in r.imageFolder && EndsWithSlash(r.imageFolder)
  {
    if data.None? || |data.value| == 0 then NoScriptV2
    else
      var d := data.value;
      var startFrame := d[0].start;
      var endFrame := d[|d| - 1].stop;
      ScriptV2(Timeline(fps, startFrame, endFrame - startFrame), SomeData(d), NormalizePath(imageFolder))
  }

  /** The two versions set up the same timeline for the same data, and the
      second embeds the same times, in the same order, as the first. */
  lemma VersionsAgree(data: Option<seq<ImageTiming>>, fps: int, imageFolder: string)
    ensures GenerateV1(data, fps, imageFolder).NoScriptV1? <==> GenerateV2(data, fps, imageFolder).NoScriptV2?
    ensures GenerateV2(data, fps, imageFolder).ScriptV2? ==>
      && GenerateV1(data, fps, imageFolder).timeline == GenerateV2(data, fps, imageFolder).timeline
      && forall i :: 0 <= i < |data.value| ==>
        && GenerateV2(data, fps, imageFolder).someData[i].start == GenerateV1(data, fps, imageFolder).imageTimings[i].start
        && GenerateV2(data, fps, imageFolder).someData[i].stop == GenerateV1(data, fps, imageFolder).imageTimings[i].stop
  {
  }
}
