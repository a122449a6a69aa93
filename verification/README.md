# yt_dt: download-and-trim decisions, modelled in Dafny

`scripts/yt_download_and_trim/yt_dt.py` downloads the audio of a YouTube
video and cuts out the interval between a start time and an end time. This
project models the decisions the script takes around those I/O calls:

- **Time parser** (`TimeSpec`). `parse_time_to_seconds` reads `SS`, `MM:SS`
  or `HH:MM:SS`.
- **Title cleaner** (`TitleSlug`). `download_youtube_audio` turns the video
  title into a file-name slug.
- **File resolver** (`Resolver`). After the download, the script picks the
  `.mp3` file it wrote: by cleaned title, by title words, by newest mtime, or
  else the expected path.
- **Trim window** (`Trim`). `trim_audio` checks the start, clamps the end,
  rejects an empty range and slices.
- **Command line** (`Cli`). `main` checks `start < end` before the download
  and builds the default output name. It uses `Path.stem`, modelled in
  `Paths`.

`Text` gives the Python string operations these need:
- `str.split(':')`, `str.split()`, `in`, `lower()` and `replace`;
- the `\w` and `\s` character classes.

`Results` holds `Option` and `Result`.

Modelling choices:
- The directory listing is an input sequence of `(path, stem, mtime)` entries
  in listing order. The audio is a sequence of one-millisecond samples, so
  `len(audio)` is its length.
- The 70% test `matches >= len(title_words) * 0.7` is a float comparison. It
  is stated in integers as `10 * matches >= 7 * len(words)`. The two agree
  for every word count below about 10^14:
  - When 7n/10 is whole, it is a double. The double nearest 0.7 is slightly
    below 0.7, so the exact product lies below 7n/10 and rounds to at most
    it: `fl(n * 0.7) <= 7n/10`.
  - Otherwise `fl(n * 0.7)` may fall on either side of 7n/10, but within far
    less than 0.1 of it. No integer lies in that gap, since 7n/10 is then at
    least 0.1 away from every integer.
  - An integer `matches` therefore clears one bound exactly when it clears
    the other.
- `max(files, key=mtime)` keeps the first of equally new files. Its loop
  replaces the candidate only on a strictly greater mtime, as `max` does.
- The resolver's first branch takes precedence over everything else. When
  the cleaned title is empty, every stem contains it, and the first listed
  file wins. `Resolver.NoWordsMatchesFirst` shows the consequence: the
  title-words branch never sees an empty word list. The 70% test's "empty
  list matches everything" case is therefore unreachable.
- `main` rejects `start >= end` before downloading. `trim_audio`'s own
  "Start time must be less than end time" error is then unreachable from
  the command line (`Cli.CheckedRangeIsNeverEmpty`).
- The resolver never fails: when no file matches, it falls back to the
  newest file, and with an empty listing to the expected path
  `output_dir/clean_title.mp3`.

## Model

| member | source | states |
|---|---|---|
| TimeSpec.ParseInt | scripts/yt_download_and_trim/yt_dt.py:55 | `int(part)` succeeds exactly on non-empty decimal digit strings; otherwise the error names the part |
| TimeSpec.FromParts | scripts/yt_download_and_trim/yt_dt.py:53-61 | one, two or three parts give a number exactly when every part is decimal; otherwise the error names the first part that is not decimal, as the left-to-right `int()` calls raise on it first |
| TimeSpec.ParseTimeToSeconds | scripts/yt_download_and_trim/yt_dt.py:51-63 | more than three `:`-parts is exactly the format error; success exactly when there are at most three parts, all decimal; an integer error names the first part that is not decimal; with at most three parts, every error is an integer error |
| TimeSpec.ExampleFirstBadPart | scripts/yt_download_and_trim/yt_dt.py:56-58 | `x:y` reports `x`, the first bad part, not `y` |
| TimeSpec.TooManyPartsFail | scripts/yt_download_and_trim/yt_dt.py:62-63 | any string with three or more colons fails with the format error and never yields a number |
| TimeSpec.ParseSeconds | scripts/yt_download_and_trim/yt_dt.py:53-55 | one decimal part `s` gives `s` |
| TimeSpec.ParseMinutes | scripts/yt_download_and_trim/yt_dt.py:56-58 | `m:s` gives `m*60+s`, with no range check on the seconds |
| TimeSpec.ParseHours | scripts/yt_download_and_trim/yt_dt.py:59-61 | `h:m:s` gives `h*3600+m*60+s`, with no range checks |
| TimeSpec.ShowNatRoundTrip | scripts/yt_download_and_trim/yt_dt.py:55 | reading the decimal rendering of `n` gives `n` back |
| TimeSpec.LeadingZeroIgnored | scripts/yt_download_and_trim/yt_dt.py:55 | a leading zero does not change a part's value |
| TimeSpec.HoursRoundTrip | scripts/yt_download_and_trim/yt_dt.py:59-61 | rendering `h:m:s` and parsing it gives `h*3600+m*60+s` for all naturals |
| TimeSpec.ExampleMinutesStart | scripts/yt_download_and_trim/yt_dt.py:189-190 | the usage text's start times `0:30` and `30` both give 30 seconds |
| TimeSpec.ExampleMinutesEnd | scripts/yt_download_and_trim/yt_dt.py:189-190 | the usage text's end times `2:15` and `135` both give 135 seconds |
| TimeSpec.ExampleHoursStart | scripts/yt_download_and_trim/yt_dt.py:191 | the usage text's start time `1:30:45` gives 5445 seconds |
| TimeSpec.ExampleHoursEnd | scripts/yt_download_and_trim/yt_dt.py:191 | the usage text's end time `1:33:20` gives 5600 seconds |
| TimeSpec.ExampleErrors | scripts/yt_download_and_trim/yt_dt.py:51-63 | `1:2:3:4` is a format error; `1:x` and the empty string are integer errors naming `x` and `""` |
| Text.Split | scripts/yt_download_and_trim/yt_dt.py:51 | `split(sep)` yields at least one part, even for the empty string |
| Text.SplitShape | scripts/yt_download_and_trim/yt_dt.py:51 | `split(':')` yields one more part than there are colons, and no part holds a colon |
| Text.JoinSplit | scripts/yt_download_and_trim/yt_dt.py:51 | joining the parts of `split(sep)` with `sep` gives back the string |
| Text.SplitKeepsChars | scripts/yt_download_and_trim/yt_dt.py:51 | every character other than the separator lands in some part |
| Text.ClassesDisjoint | scripts/yt_download_and_trim/yt_dt.py:96-97 | no word character is whitespace, and `-` is neither |
| Text.Lower | scripts/yt_download_and_trim/yt_dt.py:110 | lower-casing maps each upper-case letter to the letter 32 code points above it, changes nothing else, leaves no upper-case letter, and keeps whitespace and word characters as they are classified |
| Text.LowerStr | scripts/yt_download_and_trim/yt_dt.py:110 | `lower()` keeps the length and lower-cases every character in place |
| Text.Contains | scripts/yt_download_and_trim/yt_dt.py:110 | a string contains no needle longer than itself |
| Text.ContainsIff | scripts/yt_download_and_trim/yt_dt.py:110 | `needle in hay` holds exactly when the needle occurs at some offset |
| Text.EmptyIsContained | scripts/yt_download_and_trim/yt_dt.py:110 | the empty string is in every string |
| Text.SplitWords | scripts/yt_download_and_trim/yt_dt.py:114 | `split()` yields non-empty words without whitespace |
| Text.SplitWordsSkip | scripts/yt_download_and_trim/yt_dt.py:114 | whitespace before the first word does not change the words |
| Text.SplitWordsCons | scripts/yt_download_and_trim/yt_dt.py:114 | a maximal run of non-whitespace followed by whitespace is the first word, and the words of the rest follow it |
| Text.SplitWordsEmpty | scripts/yt_download_and_trim/yt_dt.py:114 | `split()` yields no words exactly when the string is all whitespace |
| Text.ReplaceChar | scripts/yt_download_and_trim/yt_dt.py:232 | `replace` keeps the length and swaps exactly the occurrences of the replaced character, position by position |
| Text.ReplaceIsSplitJoin | scripts/yt_download_and_trim/yt_dt.py:232 | `replace(':', '-')` equals splitting on `:` and joining with `-` |
| TitleSlug.RemoveDisallowed | scripts/yt_download_and_trim/yt_dt.py:96 | the first substitution keeps only word characters, whitespace and `-`, all taken from the title, and leaves such a title unchanged |
| TitleSlug.RemoveDisallowedAppend | scripts/yt_download_and_trim/yt_dt.py:96 | the first substitution works on each character on its own: cleaning a concatenation cleans each part |
| TitleSlug.RemoveDisallowedChar | scripts/yt_download_and_trim/yt_dt.py:96 | a single character is kept exactly when it is a word character, whitespace or `-`, and dropped otherwise |
| TitleSlug.RemoveDisallowedDropsOne | scripts/yt_download_and_trim/yt_dt.py:96 | a disallowed character is deleted without touching what lies on either side of it |
| TitleSlug.Strip | scripts/yt_download_and_trim/yt_dt.py:96 | `strip()` returns a slice of the string with only whitespace before and after it, and no whitespace at either of its own ends; a string without end whitespace is unchanged |
| TitleSlug.CollapseSeparators | scripts/yt_download_and_trim/yt_dt.py:97 | a non-empty string collapses to a non-empty one that starts with `-` when the string starts with a separator, and with the same character otherwise |
| TitleSlug.SkipSeparatorsRun | scripts/yt_download_and_trim/yt_dt.py:97 | the regex's `[-\s]+` consumes a whole run of separators, up to the first non-separator |
| TitleSlug.CollapseRun | scripts/yt_download_and_trim/yt_dt.py:97 | a non-empty run of separators at the front becomes one `-` |
| TitleSlug.CollapseAppend | scripts/yt_download_and_trim/yt_dt.py:97 | collapsing a concatenation collapses each part, when the first part ends with a non-separator |
| TitleSlug.CollapseRunBetween | scripts/yt_download_and_trim/yt_dt.py:97 | a maximal run of separators between two parts becomes a single `-` between the collapsed parts |
| TitleSlug.CollapseWord | scripts/yt_download_and_trim/yt_dt.py:97 | a string of word characters is not changed by the collapsing |
| TitleSlug.CleanTitleJoinsWords | scripts/yt_download_and_trim/yt_dt.py:96-97 | two slugs with whitespace or dashes between them clean to the two slugs joined by exactly one `-`, so `a b` gives `a-b` |
| TitleSlug.ExampleRemoveDisallowed | scripts/yt_download_and_trim/yt_dt.py:96 | `My Song (Live)` loses its parentheses and keeps its spaces: `My Song Live` |
| TitleSlug.ExampleCollapse | scripts/yt_download_and_trim/yt_dt.py:97 | `My Song Live` collapses to `My-Song-Live` |
| TitleSlug.ExampleCleanTitle | scripts/yt_download_and_trim/yt_dt.py:96-97 | the title `My Song (Live)` cleans to `My-Song-Live` |
| TitleSlug.ExampleTwoWords | scripts/yt_download_and_trim/yt_dt.py:96-97 | the title `a b` cleans to `a-b` |
| TitleSlug.CollapseSlugged | scripts/yt_download_and_trim/yt_dt.py:97 | collapsing runs of `-` and whitespace in kept characters leaves word characters and single dashes only |
| TitleSlug.CleanTitle | scripts/yt_download_and_trim/yt_dt.py:96-97 | the cleaned title has only word characters and `-`, and never two adjacent `-` |
| TitleSlug.SluggedIsSlug | scripts/yt_download_and_trim/yt_dt.py:96-97 | the character-by-character slug shape is the same as the index-wise one |
| TitleSlug.SlugHasNoSpace | scripts/yt_download_and_trim/yt_dt.py:96-97 | a cleaned title contains no whitespace |
| TitleSlug.CollapseSlug | scripts/yt_download_and_trim/yt_dt.py:97 | collapsing leaves a slug unchanged |
| TitleSlug.SlugIsCleaned | scripts/yt_download_and_trim/yt_dt.py:96-97 | cleaning a slug returns it unchanged |
| TitleSlug.CleanTitleIdempotent | scripts/yt_download_and_trim/yt_dt.py:96-97 | cleaning a cleaned title changes nothing |
| TitleSlug.RemoveDisallowedKeepsWords | scripts/yt_download_and_trim/yt_dt.py:96 | the first substitution deletes no word character |
| TitleSlug.StripKeepsWords | scripts/yt_download_and_trim/yt_dt.py:96 | stripping deletes no word character |
| TitleSlug.CollapseKeepsWords | scripts/yt_download_and_trim/yt_dt.py:97 | collapsing deletes no word character |
| TitleSlug.CleanTitleKeepsWords | scripts/yt_download_and_trim/yt_dt.py:96-97 | the cleaned title keeps every word character of the title, in order |
| TitleSlug.CleanTitleEmpty | scripts/yt_download_and_trim/yt_dt.py:96-97 | the cleaned title is empty exactly when the title has no word character and no `-` |
| Resolver.TitleHit | scripts/yt_download_and_trim/yt_dt.py:110 | an empty cleaned title matches every file; a cleaned title longer than the stem matches none |
| Resolver.TitleWords | scripts/yt_download_and_trim/yt_dt.py:114 | `title.lower().split()` has no words exactly when the title is all whitespace, and never yields an empty word |
| Resolver.WordsHit | scripts/yt_download_and_trim/yt_dt.py:117-119 | a file whose stem contains every word passes the 70% test; a file passing it with a non-empty word list contains at least one word |
| Resolver.ExpectedPath | scripts/yt_download_and_trim/yt_dt.py:103 | the last component of the expected path is the cleaned title plus `.mp3`, whenever the cleaned title has no `/` |
| Resolver.MatchCount | scripts/yt_download_and_trim/yt_dt.py:118 | the number of matching words never exceeds the number of words |
| Resolver.MatchCountAll | scripts/yt_download_and_trim/yt_dt.py:118-119 | the count equals the number of words exactly when every word occurs in the stem |
| Resolver.MatchCountNone | scripts/yt_download_and_trim/yt_dt.py:118 | the count is zero exactly when no word occurs in the stem |
| Resolver.CountMatches | scripts/yt_download_and_trim/yt_dt.py:118 | the summing loop returns the number of words, repeats included, that occur in the stem |
| Resolver.NoWordsMatchesFirst | scripts/yt_download_and_trim/yt_dt.py:109-120 | a title without words cleans to the empty string, which every file's stem contains |
| Resolver.FindByTitle | scripts/yt_download_and_trim/yt_dt.py:109-111 | returns the first file whose lower-cased stem contains the lower-cased cleaned title, or reports that none does |
| Resolver.FindByWords | scripts/yt_download_and_trim/yt_dt.py:115-120 | returns the first file whose stem contains at least 70% of the words, or reports that none does |
| Resolver.FindNewest | scripts/yt_download_and_trim/yt_dt.py:123-125 | returns a file with an mtime at least every other file's, the first of equally new files |
| Resolver.ResolveDownloadedFile | scripts/yt_download_and_trim/yt_dt.py:103-128 | each tier is taken exactly when the earlier ones find nothing and it finds a file; each returns its first qualifying file; tier 2 never has an empty word list; the newest file has the greatest mtime; the expected path `dir/clean.mp3` comes exactly when the listing is empty; an empty cleaned title picks the first file |
| Trim.ClampedEnd | scripts/yt_download_and_trim/yt_dt.py:152-156 | the end is `min(end*1000, duration)` |
| Trim.TrimWindow | scripts/yt_download_and_trim/yt_dt.py:143-159 | the start error comes exactly when `start*1000 >= duration`; the empty-range error exactly when the start fits but `start >= end`; success exactly when the start fits and `start < end`, and then the window is `[start*1000, min(end*1000, duration))`, non-empty and within the audio |
| Trim.TrimAudio | scripts/yt_download_and_trim/yt_dt.py:143-162 | fails exactly as the window does; on success returns the samples of the window, `end_ms - start_ms` of them; warns exactly when the start fits and the end lies past the audio |
| Trim.ClampToEnd | scripts/yt_download_and_trim/yt_dt.py:152-156 | an end past the audio keeps everything from the start to the end of the audio |
| Trim.ExamplePastEnd | scripts/yt_download_and_trim/yt_dt.py:152-156 | with 100 s of audio, `0 150` and `30 135` are clamped to the end |
| Trim.ExampleErrors | scripts/yt_download_and_trim/yt_dt.py:147-159 | with 100 s of audio, starts at 150 s and 100 s are rejected, and `50 50` and `60 50` are empty ranges |
| Paths.BaseName | scripts/yt_download_and_trim/yt_dt.py:231 | the last component is a `/`-free suffix of the path, preceded by `/` when shorter than the path |
| Paths.FindLast | scripts/yt_download_and_trim/yt_dt.py:231 | `rfind` returns -1 exactly when the character is absent, else its last position |
| Paths.NameStem | scripts/yt_download_and_trim/yt_dt.py:231 | the stem is the whole name exactly when its last `.` is absent, first or last; otherwise it is the non-empty part before that last `.`, which is followed by a non-empty, dot-free suffix |
| Paths.PathStem | scripts/yt_download_and_trim/yt_dt.py:231 | the stem of a path holds no `/` |
| Paths.BaseNameOfJoin | scripts/yt_download_and_trim/yt_dt.py:231 | the last component of `dir + "/" + name` is `name` |
| Cli.CheckTimeRange | scripts/yt_download_and_trim/yt_dt.py:211-216 | passes exactly when both times parse and the start is earlier, returning both values; a start that fails to parse is reported before the end; two valid times with the start not earlier give the ordering error |
| Cli.CheckedRangeIsNeverEmpty | scripts/yt_download_and_trim/yt_dt.py:214-216 | after the check, trimming fails only when the start lies at or past the end of the audio |
| Cli.SlugHasNoSlashOrDot | scripts/yt_download_and_trim/yt_dt.py:96-97 | a cleaned title contains no `/` and no `.` |
| Cli.StemOfExpectedPath | scripts/yt_download_and_trim/yt_dt.py:231 | the stem of the expected path is the cleaned title, or `.mp3` when the cleaned title is empty |
| Cli.TimeTag | scripts/yt_download_and_trim/yt_dt.py:232 | the time string as it enters the file name contains no `:` |
| Cli.DefaultOutputName | scripts/yt_download_and_trim/yt_dt.py:232 | the default name starts with the stem and everything after the stem is free of `:` |
| Cli.OutputFileName | scripts/yt_download_and_trim/yt_dt.py:228-232 | a non-empty `--output` is used as given; an absent or empty one gives the default name built from the downloaded file's stem |
| Cli.OutputNameUsesMatchedStem | scripts/yt_download_and_trim/yt_dt.py:228-232 | without a usable `--output`, a well-formed entry's output name is built from the stem the resolver matched on |
| Cli.ParsedTimeHasNoDash | scripts/yt_download_and_trim/yt_dt.py:232 | a time string that parses contains no `-` |
| Cli.TimeTagRoundTrip | scripts/yt_download_and_trim/yt_dt.py:232 | turning the tag's `-` back into `:` restores a time string that parses |
| Cli.DefaultOutputNameParts | scripts/yt_download_and_trim/yt_dt.py:232 | the default name is the stem, `_trimmed_`, the start tag, `_to_`, the end tag and `.mp3`, and each tag restores its time string |

## Left out

- The yt-dlp calls are not modelled: `extract_info` and the download are network I/O. The title is an input.
- `Path.mkdir` and the `glob("*.mp3")` listing are not modelled. The listing is an input.
- The `try`/`except` that rewraps every failure as a generic `Exception` is not modelled. The model's errors are the inner ones.
- pydub's `AudioSegment.from_mp3`, `export` and the codec are not modelled. The audio is its sample sequence.
- `cleanup_temp_file` and `--keep-temp` are not modelled: they are filesystem side effects.
- argparse and `sys.exit` are not modelled. The two time strings and `--output` are inputs, and errors are values.
- The `print` calls are not modelled. The clamp warning is the `clamped` result of `Trim.TrimAudio`.
- The printed trim duration `(end_ms - start_ms) // 1000` is not modelled.
- TimeSpec.ParseInt: it accepts only ASCII decimal digits. Python's `int()` also takes a sign, surrounding whitespace, `_` separators and non-ASCII digits.
  - Negative times are therefore outside the model.
  - So is pydub's slicing from the end for negative offsets.
- Text.IsWordChar, Text.IsSpace, Text.Lower and Text.LowerStr are not full Unicode:
  - `IsSpace` is exactly Python's `str.isspace`.
  - `IsWordChar` and `Lower` follow Python only up to U+00FF. Above that, the model treats every character as a non-word character that lowers to itself.
  - Python's lower-casing can also lengthen a string, for `İ`. `LowerStr` cannot: it always keeps the length.
- Resolver.AudioFile: the modification time is an integer, not a float.
- Resolver.AudioFile: the stem is given with each entry rather than derived from its path.
  - Deriving it inside the resolver's loops brings `PathStem`'s recursive definitions into every loop proof, which then exceeds the solver's resource limit.
  - `Resolver.WellFormed` states the intended link: the stem is `PathStem(path)`.
  - `Cli.OutputNameUsesMatchedStem` shows that for such an entry the default output name uses the stem the resolver matched on.
- Paths.PathStem: the path is not normalised. Trailing slashes and `.` components are not dropped as `PurePath` drops them. The paths the resolver returns have neither.
- Resolver.WordsHit: the 70% float threshold is stated as `10 * matches >= 7 * len(words)`. This is exact below about 10^14 words, as argued above.
- The second script in the same directory, `extract_bass_drums_from_youtube.py`, is not modelled. It only wraps a download, a demucs subprocess and pydub overlay and export calls.
