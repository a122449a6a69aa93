/**
 How `download_youtube_audio` finds the file yt-dlp wrote. The directory
 listing is an input: one entry per `*.mp3` file, in the order the listing
 yields them. Three tiers are tried in turn, each taking the first file that
 qualifies; an empty listing yields the path the cleaned title predicts.
 */
module Resolver {
  import opened Results
  import opened Text
  import opened Paths
  import opened TitleSlug

  /**
   One `.mp3` file of the output directory, as the listing yields it: its
   path, the stem of that path and its modification time.
   */
  datatype AudioFile = AudioFile(path: string, stem: string, mtime: int)

  /** An entry whose stem is its path's stem, as `file.stem` gives it for a listed file. */
  predicate WellFormed(f: AudioFile)
  {
    f.stem == PathStem(f.path)
  }

  /** The rule that picked the returned path, with the picked file's position in the listing. */
  datatype Choice = ByTitle(index: nat) | ByWords(index: nat) | Newest(index: nat) | Expected

  /**
   Tier 1: the lower-cased stem contains the lower-cased cleaned title. An
   empty cleaned title is contained in every stem; a longer one than the stem
   in none.
   */
  predicate TitleHit(clean: string, f: AudioFile)
    ensures clean == [] ==> TitleHit(clean, f)
    ensures TitleHit(clean, f) ==> |clean| <= |f.stem|
  {
    EmptyIsContained(LowerStr(f.stem));
    Contains(LowerStr(f.stem), LowerStr(clean))
  }

  /**
   The title words, as `title.lower().split()` gives them: none exactly when
   the title is all whitespace, and never an empty one.
   */
  function TitleWords(title: string): (words: seq<string>)
    ensures words == [] <==> forall i :: 0 <= i < |title| ==> IsSpace(title[i])
    ensures forall k :: 0 <= k < |words| ==> words[k] != []
  {
    var lowered := LowerStr(title);
    SplitWordsEmpty(lowered);
    SplitWords(lowered)
  }

  /** How many of `words` occur in `stem`, counting repeated words each time. */
  function MatchCount(words: seq<string>, stem: string): (n: nat)
    ensures n <= |words|
  {
    if words == [] then 0
    else MatchCount(words[..|words| - 1], stem) + (if Contains(stem, words[|words| - 1]) then 1 else 0)
  }

  /**
   Tier 2: at least 70% of the words occur in the lower-cased stem. The
   threshold `matches >= len(words) * 0.7` is stated in integers.
   */
  predicate WordsHit(words: seq<string>, f: AudioFile)
    ensures (forall i :: 0 <= i < |words| ==> Contains(LowerStr(f.stem), words[i])) ==> WordsHit(words, f)
    ensures WordsHit(words, f) && words != [] ==>
      exists i :: 0 <= i < |words| && Contains(LowerStr(f.stem), words[i])
  {
    MatchCountAll(words, LowerStr(f.stem));
    MatchCountNone(words, LowerStr(f.stem));
    10 * MatchCount(words, LowerStr(f.stem)) >= 7 * |words|
  }

  /**
   The path returned when the listing is empty: the file `clean.mp3` inside
   the output directory.
   */
  function ExpectedPath(outputDir: string, clean: string): (path: string)
    ensures '/' !in clean ==> BaseName(path) == clean + ".mp3"
  {
    BaseNameOfExpected(outputDir, clean);
    outputDir + "/" + clean + ".mp3"
  }

  lemma BaseNameOfExpected(outputDir: string, clean: string)
    ensures '/' !in clean ==> BaseName(outputDir + "/" + clean + ".mp3") == clean + ".mp3"
  {
    if '/' !in clean {
      var name := clean + ".mp3";
      assert forall j :: |clean| <= j < |name| ==> name[j] == ".mp3"[j - |clean|];
      assert outputDir + "/" + clean + ".mp3" == outputDir + "/" + name;
      BaseNameOfJoin(outputDir, name);
    }
  }

  /** Every word occurs exactly when the count reaches the number of words. */
  lemma {:induction false} MatchCountAll(words: seq<string>, stem: string)
    ensures MatchCount(words, stem) == |words| <==> forall i :: 0 <= i < |words| ==> Contains(stem, words[i])
  {
    if words != [] {
      var init := words[..|words| - 1];
      MatchCountAll(init, stem);
      assert forall i :: 0 <= i < |init| ==> init[i] == words[i];
    }
  }

  /** No word occurs exactly when the count is zero. */
  lemma {:induction false} MatchCountNone(words: seq<string>, stem: string)
    ensures MatchCount(words, stem) == 0 <==> forall i :: 0 <= i < |words| ==> !Contains(stem, words[i])
  {
    if words != [] {
      var init := words[..|words| - 1];
      MatchCountNone(init, stem);
      assert forall i :: 0 <= i < |init| ==> init[i] == words[i];
    }
  }

  /** `sum(1 for word in words if word in stem)`. */
  method CountMatches(words: seq<string>, stem: string) returns (matches: nat)
    ensures matches == MatchCount(words, stem)
  {
    matches := 0;
    var k := 0;
    while k < |words|
      invariant 0 <= k <= |words|
      invariant matches == MatchCount(words[..k], stem)
    {
      assert words[..k + 1][..k] == words[..k];
      if Contains(stem, words[k]) {
        matches := matches + 1;
      }
      k := k + 1;
    }
    assert words[..k] == words;
  }

  /**
   A title that is all whitespace has no words, and then its cleaned title is
   empty, which every stem contains: tier 1 takes the first file, so tier 2
   never sees an empty word list.
   */
  lemma NoWordsMatchesFirst(title: string, f: AudioFile)
    requires TitleWords(title) == []
    ensures CleanTitle(title) == []
    ensures TitleHit(CleanTitle(title), f)
  {
    var lowered := LowerStr(title);
    SplitWordsEmpty(lowered);
    assert forall i :: 0 <= i < |title| ==> IsSpace(title[i]) by {
      forall i | 0 <= i < |title|
        ensures IsSpace(title[i])
      {
        assert IsSpace(lowered[i]);
      }
    }
    ClassesDisjoint();
    CleanTitleEmpty(title);
    EmptyIsContained(LowerStr(f.stem));
  }

  /** The first loop of the resolver: the first file whose stem contains the cleaned title. */
  method FindByTitle(clean: string, files: seq<AudioFile>) returns (found: Option<nat>)
    ensures found.Some? ==>
      found.value < |files| && TitleHit(clean, files[found.value]) &&
      forall j :: 0 <= j < found.value ==> !TitleHit(clean, files[j])
    ensures found.None? ==> forall j :: 0 <= j < |files| ==> !TitleHit(clean, files[j])
  {
    var i := 0;
    while i < |files|
      invariant 0 <= i <= |files|
      invariant forall j :: 0 <= j < i ==> !TitleHit(clean, files[j])
    {
      if TitleHit(clean, files[i]) {
        return Some(i);
      }
      i := i + 1;
    }
    return None;
  }

  /** The second loop of the resolver: the first file whose stem holds 70% of the words. */
  method FindByWords(words: seq<string>, files: seq<AudioFile>) returns (found: Option<nat>)
    ensures found.Some? ==>
      found.value < |files| && WordsHit(words, files[found.value]) &&
      forall j :: 0 <= j < found.value ==> !WordsHit(words, files[j])
    ensures found.None? ==> forall j :: 0 <= j < |files| ==> !WordsHit(words, files[j])
  {
    var i := 0;
    while i < |files|
      invariant 0 <= i <= |files|
      invariant forall j :: 0 <= j < i ==> !WordsHit(words, files[j])
    {
      var matches := CountMatches(words, LowerStr(files[i].stem));
      if 10 * matches >= 7 * |words| {
        return Some(i);
      }
      i := i + 1;
    }
    return None;
  }

  /**
   `max(files, key=mtime)`: a file no other file is newer than; among equally
   new files, the first, since `max` only replaces its candidate by a strictly
   greater one.
   */
  method FindNewest(files: seq<AudioFile>) returns (newest: nat)
    requires files != []
    ensures newest < |files|
    ensures forall j :: 0 <= j < |files| ==> files[j].mtime <= files[newest].mtime
    ensures forall j :: 0 <= j < newest ==> files[j].mtime < files[newest].mtime
  {
    newest := 0;
    var i := 1;
    while i < |files|
      invariant 1 <= i <= |files|
      invariant newest < i
      invariant forall j :: 0 <= j < i ==> files[j].mtime <= files[newest].mtime
      invariant forall j :: 0 <= j < newest ==> files[j].mtime < files[newest].mtime
    {
      if files[i].mtime > files[newest].mtime {
        newest := i;
      }
      i := i + 1;
    }
  }

  /**
   The file-finding part of `download_youtube_audio`: the first file matching
   the cleaned title, else the first matching 70% of the title words, else the
   newest file, else the expected path.
   */
  method ResolveDownloadedFile(outputDir: string, title: string, files: seq<AudioFile>)
    returns (choice: Choice, path: string)
    ensures choice.ByTitle? <==> exists i :: 0 <= i < |files| && TitleHit(CleanTitle(title), files[i])
    ensures choice.ByTitle? ==>
      choice.index < |files| && TitleHit(CleanTitle(title), files[choice.index]) &&
      forall j :: 0 <= j < choice.index ==> !TitleHit(CleanTitle(title), files[j])
    ensures choice.ByWords? <==>
      (forall i :: 0 <= i < |files| ==> !TitleHit(CleanTitle(title), files[i])) &&
      exists i :: 0 <= i < |files| && WordsHit(TitleWords(title), files[i])
    ensures choice.ByWords? ==>
      |TitleWords(title)| > 0 &&
      choice.index < |files| && WordsHit(TitleWords(title), files[choice.index]) &&
      forall j :: 0 <= j < choice.index ==> !WordsHit(TitleWords(title), files[j])
    ensures choice.Newest? <==>
      files != [] &&
      (forall i :: 0 <= i < |files| ==> !TitleHit(CleanTitle(title), files[i])) &&
      (forall i :: 0 <= i < |files| ==> !WordsHit(TitleWords(title), files[i]))
    ensures choice.Newest? ==>
      choice.index < |files| &&
      (forall j :: 0 <= j < |files| ==> files[j].mtime <= files[choice.index].mtime) &&
      (forall j :: 0 <= j < choice.index ==> files[j].mtime < files[choice.index].mtime)
    ensures choice.Expected? <==> files == []
    ensures choice.Expected? ==> path == ExpectedPath(outputDir, CleanTitle(title))
    ensures !choice.Expected? ==> choice.index < |files| && path == files[choice.index].path
    ensures CleanTitle(title) == [] && files != [] ==> choice == ByTitle(0)
  {
    var clean := CleanTitle(title);
    if clean == [] && files != [] {
      EmptyIsContained(LowerStr(files[0].stem));
    }
    var byTitle := FindByTitle(clean, files);
    if byTitle.Some? {
      return ByTitle(byTitle.value), files[byTitle.value].path;
    }

    var words := TitleWords(title);
    if words == [] && files != [] {
      NoWordsMatchesFirst(title, files[0]);
      assert false;
    }
    var byWords := FindByWords(words, files);
    if byWords.Some? {
      return ByWords(byWords.value), files[byWords.value].path;
    }

    if files != [] {
      var newest := FindNewest(files);
      return Newest(newest), files[newest].path;
    }
    return Expected, ExpectedPath(outputDir, clean);
  }
}
