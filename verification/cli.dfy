/**
 The decisions `main` takes around the download and the trim: the start and
 end times are parsed and checked before anything is downloaded, and the
 output name defaults to one built from the downloaded file's stem and the two
 time strings.
 */
module Cli {
  import opened Results
  import opened Text
  import opened Paths
  import opened TimeSpec
  import opened TitleSlug
  import opened Resolver
  import opened Trim

  datatype CliError =
    | BadTime(error: TimeError)  // `parse_time_to_seconds` raised
    | StartNotBeforeEnd          // the start is not before the end

  /**
   The checks `main` runs first: parse the start, then the end, then insist
   that the start comes first. Exits with an error before any download.
   */
  function CheckTimeRange(startTime: string, endTime: string): (r: Result<(nat, nat), CliError>)
    ensures r.Ok? <==>
      ParseTimeToSeconds(startTime).Ok? && ParseTimeToSeconds(endTime).Ok? &&
      ParseTimeToSeconds(startTime).value < ParseTimeToSeconds(endTime).value
    ensures r.Ok? ==> r.value == (ParseTimeToSeconds(startTime).value, ParseTimeToSeconds(endTime).value)
    ensures ParseTimeToSeconds(startTime).Err? ==> r == Err(BadTime(ParseTimeToSeconds(startTime).error))
    ensures ParseTimeToSeconds(startTime).Ok? && ParseTimeToSeconds(endTime).Err? ==>
      r == Err(BadTime(ParseTimeToSeconds(endTime).error))
    ensures (ParseTimeToSeconds(startTime).Ok? && ParseTimeToSeconds(endTime).Ok? &&
             ParseTimeToSeconds(startTime).value >= ParseTimeToSeconds(endTime).value) ==>
      r == Err(StartNotBeforeEnd)
  {
    match ParseTimeToSeconds(startTime)
    case Err(e) => Err(BadTime(e))
    case Ok(startSeconds) =>
      match ParseTimeToSeconds(endTime)
      case Err(e) => Err(BadTime(e))
      case Ok(endSeconds) =>
        if startSeconds >= endSeconds then Err(StartNotBeforeEnd) else Ok((startSeconds, endSeconds))
  }

  /**
   Once the times pass the check in `main`, `trim_audio` can fail only because
   the start lies at or past the end of the audio: its empty-range error is
   unreachable from the command line.
   */
  lemma CheckedRangeIsNeverEmpty(startTime: string, endTime: string, durationMs: nat)
    requires CheckTimeRange(startTime, endTime).Ok?
    ensures var (startSeconds, endSeconds) := CheckTimeRange(startTime, endTime).value;
      TrimWindow(durationMs, startSeconds, endSeconds).Ok? <==> startSeconds * 1000 < durationMs
  {
  }

  // ---------------------------------------------------------------------------
  // The stem of the downloaded file
  // ---------------------------------------------------------------------------

  /** A slug has neither `/` nor `.`: neither is a word character. */
  lemma SlugHasNoSlashOrDot(clean: string)
    requires IsSlug(clean)
    ensures '/' !in clean && '.' !in clean
  {
    WordCases('/');
    WordCases('.');
  }

  /** A file named by the expected path has the cleaned title as its stem. */
  lemma StemOfExpectedPath(outputDir: string, clean: string)
    requires IsSlug(clean)
    ensures clean != [] ==> PathStem(ExpectedPath(outputDir, clean)) == clean
    ensures clean == [] ==> PathStem(ExpectedPath(outputDir, clean)) == ".mp3"
  {
    SlugHasNoSlashOrDot(clean);
    var name := clean + ".mp3";
    assert ExpectedPath(outputDir, clean) == outputDir + "/" + name;
    BaseNameOfJoin(outputDir, name);
    LastDotOfMp3(clean);
    assert name[..|clean|] == clean;
  }

  // ---------------------------------------------------------------------------
  // The output file name
  // ---------------------------------------------------------------------------

  /** A time string as it appears in a file name: every `:` replaced by `-`. */
  function TimeTag(time: string): (tag: string)
    ensures ':' !in tag
  {
    ReplaceChar(time, ':', '-')
  }

  /**
   The name `main` builds when no `--output` is given: the stem, then a tail
   free of `:`.
   */
  function DefaultOutputName(stem: string, startTime: string, endTime: string): (name: string)
    ensures |stem| < |name| && name[..|stem|] == stem
    ensures ':' !in name[|stem|..]
  {
    stem + "_trimmed_" + TimeTag(startTime) + "_to_" + TimeTag(endTime) + ".mp3"
  }

  /** `--output` wins unless it is absent or empty, which Python treats as false. */
  function OutputFileName(output: Option<string>, downloaded: string, startTime: string, endTime: string): (name: string)
    ensures output.Some? && output.value != [] ==> name == output.value
    ensures output.None? || output.value == [] ==>
      name == DefaultOutputName(PathStem(downloaded), startTime, endTime)
  {
    if output.Some? && output.value != [] then output.value
    else DefaultOutputName(PathStem(downloaded), startTime, endTime)
  }

  /**
   Without `--output`, the name of a well-formed listing entry is built from
   the very stem the resolver matched on.
   */
  lemma OutputNameUsesMatchedStem(f: AudioFile, output: Option<string>, startTime: string, endTime: string)
    requires WellFormed(f)
    requires output.None? || output.value == []
    ensures OutputFileName(output, f.path, startTime, endTime) == DefaultOutputName(f.stem, startTime, endTime)
  {
  }

  /** A time string that parses holds only digits and colons: no `-`. */
  lemma ParsedTimeHasNoDash(time: string)
    requires ParseTimeToSeconds(time).Ok?
    ensures '-' !in time
  {
    if '-' in time {
      var i :| 0 <= i < |time| && time[i] == '-';
      SplitKeepsChars(time, ':', i);
    }
  }

  /**
   The tag of a time that parses gives the time back when its `-` become `:`
   again, so the name records both times exactly.
   */
  lemma TimeTagRoundTrip(time: string)
    requires ParseTimeToSeconds(time).Ok?
    ensures ReplaceChar(TimeTag(time), '-', ':') == time
  {
    ParsedTimeHasNoDash(time);
    var back := ReplaceChar(TimeTag(time), '-', ':');
    forall i | 0 <= i < |time|
      ensures back[i] == time[i]
    {
      assert time[i] != '-';
    }
  }

  /**
   Each time tag in the default name gives back its time string. The layout
   conjuncts (stem, `_trimmed_`, tail) only locate the two tags inside the
   name; the two round trips are what this lemma adds.
   */
  lemma DefaultOutputNameParts(stem: string, startTime: string, endTime: string)
    requires ParseTimeToSeconds(startTime).Ok? && ParseTimeToSeconds(endTime).Ok?
    ensures var name := DefaultOutputName(stem, startTime, endTime);
      var tail := name[|stem| + 9..];
      name[..|stem|] == stem && name[|stem|..|stem| + 9] == "_trimmed_" &&
      tail == TimeTag(startTime) + "_to_" + TimeTag(endTime) + ".mp3" &&
      ReplaceChar(tail[..|startTime|], '-', ':') == startTime &&
      ReplaceChar(tail[|startTime| + 4..|startTime| + 4 + |endTime|], '-', ':') == endTime
  {
    var s := TimeTag(startTime);
    var e := TimeTag(endTime);
    assert |s| == |startTime| && |e| == |endTime|;
    var tail := s + "_to_" + e + ".mp3";
    var name := DefaultOutputName(stem, startTime, endTime);
    assert name == stem + "_trimmed_" + tail;
    assert name[..|stem|] == stem;
    assert name[|stem|..|stem| + 9] == "_trimmed_";
    assert name[|stem| + 9..] == tail;
    assert tail[..|startTime|] == s;
    assert tail[|startTime| + 4..|startTime| + 4 + |endTime|] == e;
    TimeTagRoundTrip(startTime);
    TimeTagRoundTrip(endTime);
  }
}
