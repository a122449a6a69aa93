/**
 The bounds checks of `trim_audio`. The decoded audio is a sequence of
 one-millisecond samples, so its length is the duration in milliseconds that
 `len(audio)` reports; the times are whole seconds.
 */
module Trim {
  import opened Results

  datatype TrimError =
    | StartExceedsDuration(startSeconds: nat, durationSeconds: nat)
    | EmptyRange

  /** The millisecond window `[lo, hi)` that is cut out. */
  datatype Window = Window(lo: nat, hi: nat)

  /** The end of the window: the requested end, clamped to the duration. */
  function ClampedEnd(durationMs: nat, endSeconds: nat): (hi: nat)
    ensures hi <= durationMs && hi <= endSeconds * 1000
    ensures hi == durationMs || hi == endSeconds * 1000
  {
    if endSeconds * 1000 > durationMs then durationMs else endSeconds * 1000
  }

  /**
   The window `trim_audio` cuts from audio of `durationMs` milliseconds, or the
   error it raises.
   */
  function TrimWindow(durationMs: nat, startSeconds: nat, endSeconds: nat): (r: Result<Window, TrimError>)
    ensures r == Err(StartExceedsDuration(startSeconds, durationMs / 1000)) <==>
      startSeconds * 1000 >= durationMs
    ensures r == Err(EmptyRange) <==>
      startSeconds * 1000 < durationMs && startSeconds >= endSeconds
    ensures r.Ok? <==> startSeconds * 1000 < durationMs && startSeconds < endSeconds
    ensures r.Ok? ==>
      r.value.lo == startSeconds * 1000 && r.value.lo < r.value.hi && r.value.hi <= durationMs &&
      r.value.hi == ClampedEnd(durationMs, endSeconds)
  {
    var lo := startSeconds * 1000;
    if lo >= durationMs then Err(StartExceedsDuration(startSeconds, durationMs / 1000))
    else
      var hi := ClampedEnd(durationMs, endSeconds);
      if lo >= hi then Err(EmptyRange) else Ok(Window(lo, hi))
  }

  /**
   `trim_audio` without the decoding and the export: the trimmed samples, or
   the error; `clamped` reports the warning that the end lies past the audio.
   */
  method TrimAudio<T>(audio: seq<T>, startSeconds: nat, endSeconds: nat)
    returns (r: Result<seq<T>, TrimError>, clamped: bool)
    ensures clamped <==> startSeconds * 1000 < |audio| && endSeconds * 1000 > |audio|
    ensures r.Err? <==> TrimWindow(|audio|, startSeconds, endSeconds).Err?
    ensures r.Err? ==> r.error == TrimWindow(|audio|, startSeconds, endSeconds).error
    ensures r.Ok? ==>
      var w := TrimWindow(|audio|, startSeconds, endSeconds).value;
      r.value == audio[w.lo..w.hi] && |r.value| == w.hi - w.lo > 0
  {
    clamped := false;
    var startMs := startSeconds * 1000;
    var endMs := endSeconds * 1000;
    if startMs >= |audio| {
      return Err(StartExceedsDuration(startSeconds, |audio| / 1000)), clamped;
    }
    if endMs > |audio| {
      clamped := true;
      endMs := |audio|;
    }
    if startMs >= endMs {
      return Err(EmptyRange), clamped;
    }
    r := Ok(audio[startMs..endMs]);
  }

  /** An end past the audio is clamped, not rejected: the rest of the audio is kept. */
  lemma ClampToEnd(durationMs: nat, startSeconds: nat, endSeconds: nat)
    requires startSeconds * 1000 < durationMs < endSeconds * 1000
    ensures TrimWindow(durationMs, startSeconds, endSeconds) == Ok(Window(startSeconds * 1000, durationMs))
  {
  }

  /** Audio of 100 seconds: a range running past the end keeps everything from the start. */
  lemma ExamplePastEnd()
    ensures TrimWindow(100000, 0, 150) == Ok(Window(0, 100000))
    ensures TrimWindow(100000, 30, 135) == Ok(Window(30000, 100000))
  {
  }

  /** Audio of 100 seconds: a start at or past the end, or an empty range, is an error. */
  lemma ExampleErrors()
    ensures TrimWindow(100000, 150, 200) == Err(StartExceedsDuration(150, 100))
    ensures TrimWindow(100000, 100, 200) == Err(StartExceedsDuration(100, 100))
    ensures TrimWindow(100000, 50, 50) == Err(EmptyRange)
    ensures TrimWindow(100000, 60, 50) == Err(EmptyRange)
  {
  }
}
