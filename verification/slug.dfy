/**
 The title cleaning of `download_youtube_audio`: delete every character that
 is not a word character, whitespace or `-`; strip whitespace from both ends;
 replace every run of `-` and whitespace by a single `-`.
 */
module TitleSlug {
  import opened Text

  /** Characters the first substitution keeps: `\w`, `\s` and `-`. */
  predicate IsKept(c: char)
  {
    IsWordChar(c) || IsSpace(c) || c == '-'
  }

  /** Characters of the class `[-\s]` that the second substitution collapses. */
  predicate IsSeparator(c: char)
  {
    c == '-' || IsSpace(c)
  }

  /** The shape of a cleaned title: word characters and single dashes only. */
  predicate IsSlug(s: string)
  {
    (forall i :: 0 <= i < |s| ==> IsWordChar(s[i]) || s[i] == '-') &&
    (forall i :: 0 <= i < |s| - 1 ==> !(s[i] == '-' && s[i + 1] == '-'))
  }

  /** The word characters of `s`, in order. */
  function WordChars(s: string): (w: string)
    ensures forall i :: 0 <= i < |w| ==> IsWordChar(w[i])
  {
    if s == [] then []
    else (if IsWordChar(s[0]) then [s[0]] else []) + WordChars(s[1..])
  }

  /** `re.sub(r"[^\w\s-]", "", s)`. */
  function RemoveDisallowed(s: string): (r: string)
    ensures forall i :: 0 <= i < |r| ==> IsKept(r[i]) && r[i] in s
    ensures (forall i :: 0 <= i < |s| ==> IsKept(s[i])) ==> r == s
  {
    if s == [] then []
    else (if IsKept(s[0]) then [s[0]] else []) + RemoveDisallowed(s[1..])
  }

  /** Drops the trailing whitespace of `s`. */
  function SkipTrailingSpaces(s: string): (r: string)
    ensures |r| <= |s|
    ensures r == s[..|r|]
    ensures r == [] || !IsSpace(r[|r| - 1])
    ensures forall i :: |r| <= i < |s| ==> IsSpace(s[i])
  {
    if s != [] && IsSpace(s[|s| - 1]) then SkipTrailingSpaces(s[..|s| - 1]) else s
  }

  /** `s` is `r` with whitespace only before it (`k` characters) and after it. */
  predicate Padded(s: string, k: nat, r: string)
  {
    k + |r| <= |s| && r == s[k..k + |r|] &&
    (forall i :: 0 <= i < k ==> IsSpace(s[i])) &&
    (forall i :: k + |r| <= i < |s| ==> IsSpace(s[i]))
  }

  /**
   Python's `s.strip()`: a slice of `s` with only whitespace before and after
   it, whose own first and last characters are not whitespace.
   */
  function Strip(s: string): (r: string)
    ensures r == [] || (!IsSpace(r[0]) && !IsSpace(r[|r| - 1]))
    ensures s == [] || (!IsSpace(s[0]) && !IsSpace(s[|s| - 1])) ==> r == s
    ensures exists k: nat :: Padded(s, k, r)
  {
    PaddedByTrim(s);
    SkipTrailingSpaces(SkipSpaces(s))
  }

  lemma PaddedByTrim(s: string)
    ensures Padded(s, |s| - |SkipSpaces(s)|, SkipTrailingSpaces(SkipSpaces(s)))
  {
    PaddedBySlices(s, SkipSpaces(s), SkipTrailingSpaces(SkipSpaces(s)));
  }

  /** Whitespace dropped from the front of `s`, then from the back of what is left. */
  lemma PaddedBySlices(s: string, t: string, r: string)
    requires |t| <= |s| && t == s[|s| - |t|..] && forall i :: 0 <= i < |s| - |t| ==> IsSpace(s[i])
    requires |r| <= |t| && r == t[..|r|] && forall i :: |r| <= i < |t| ==> IsSpace(t[i])
    ensures Padded(s, |s| - |t|, r)
  {
    var k := |s| - |t|;
    assert r == s[k..k + |r|];
    forall i | k + |r| <= i < |s|
      ensures IsSpace(s[i])
    {
      assert s[i] == t[i - k];
    }
  }

  /** Stripping only removes characters from the ends: what remains was kept. */
  lemma StripKeepsKept(s: string)
    requires forall i :: 0 <= i < |s| ==> IsKept(s[i])
    ensures forall i :: 0 <= i < |Strip(s)| ==> IsKept(Strip(s)[i])
  {
    SkipSpacesKeepsKept(s);
    SkipTrailingKeepsKept(SkipSpaces(s));
  }

  lemma SkipSpacesKeepsKept(s: string)
    requires forall i :: 0 <= i < |s| ==> IsKept(s[i])
    ensures forall i :: 0 <= i < |SkipSpaces(s)| ==> IsKept(SkipSpaces(s)[i])
  {
    var t := SkipSpaces(s);
    forall i | 0 <= i < |t|
      ensures IsKept(t[i])
    {
      assert t[i] == s[|s| - |t| + i];
    }
  }

  lemma SkipTrailingKeepsKept(t: string)
    requires forall i :: 0 <= i < |t| ==> IsKept(t[i])
    ensures forall i :: 0 <= i < |SkipTrailingSpaces(t)| ==> IsKept(SkipTrailingSpaces(t)[i])
  {
    var r := SkipTrailingSpaces(t);
    forall i | 0 <= i < |r|
      ensures IsKept(r[i])
    {
      assert r[i] == t[i];
    }
  }

  /** Drops the leading run of separators of `s`. */
  function SkipSeparators(s: string): (r: string)
    ensures |r| <= |s|
    ensures r == [] || !IsSeparator(r[0])
    ensures r == s[|s| - |r|..]
    ensures forall i :: 0 <= i < |s| - |r| ==> IsSeparator(s[i])
  {
    if s != [] && IsSeparator(s[0]) then SkipSeparators(s[1..]) else s
  }

  /** `re.sub(r"[-\s]+", "-", s)`: each maximal run of separators becomes one `-`. */
  function CollapseSeparators(s: string): (r: string)
    ensures s != [] ==> r != [] && r[0] == (if IsSeparator(s[0]) then '-' else s[0])
    decreases |s|
  {
    if s == [] then []
    else if IsSeparator(s[0]) then "-" + CollapseSeparators(SkipSeparators(s[1..]))
    else [s[0]] + CollapseSeparators(s[1..])
  }

  /**
   The shape of a cleaned title, one character at a time: each character is a
   word character or a dash, and a dash is never followed by another.
   */
  predicate Slugged(s: string)
  {
    s == [] ||
    ((IsWordChar(s[0]) || s[0] == '-') &&
     (|s| > 1 ==> !(s[0] == '-' && s[1] == '-')) &&
     Slugged(s[1..]))
  }

  lemma {:induction false} SluggedIsSlug(s: string)
    ensures Slugged(s) <==> IsSlug(s)
  {
    if s != [] {
      SluggedIsSlug(s[1..]);
      var t := s[1..];
      assert forall i :: 0 <= i < |t| ==> t[i] == s[i + 1];
      if IsSlug(s) {
        assert IsSlug(t);
      }
      if Slugged(s) {
        forall i | 0 <= i < |s|
          ensures IsWordChar(s[i]) || s[i] == '-'
        {
          if i > 0 { assert s[i] == t[i - 1]; }
        }
        forall i | 0 <= i < |s| - 1
          ensures !(s[i] == '-' && s[i + 1] == '-')
        {
          if i > 0 { assert s[i] == t[i - 1] && s[i + 1] == t[i]; }
        }
      }
    }
  }

  /** A slug has no whitespace: word characters and `-` are not spaces. */
  lemma SlugHasNoSpace(s: string)
    requires IsSlug(s)
    ensures forall i :: 0 <= i < |s| ==> !IsSpace(s[i])
  {
    ClassesDisjoint();
  }

  /** Collapsing a string of kept characters yields a slug. */
  lemma {:induction false} CollapseSlugged(s: string)
    requires forall i :: 0 <= i < |s| ==> IsKept(s[i])
    ensures Slugged(CollapseSeparators(s))
    decreases |s|
  {
    if s != [] {
      if IsSeparator(s[0]) {
        var rest := SkipSeparators(s[1..]);
        assert forall i :: 0 <= i < |rest| ==> rest[i] == s[|s| - |rest| + i];
        CollapseSlugged(rest);
        var t := CollapseSeparators(rest);
        assert CollapseSeparators(s) == "-" + t;
        assert ("-" + t)[1..] == t;
        assert t == [] || t[0] != '-';
      } else {
        var rest := s[1..];
        assert forall i :: 0 <= i < |rest| ==> rest[i] == s[i + 1];
        CollapseSlugged(rest);
        var t := CollapseSeparators(rest);
        assert CollapseSeparators(s) == [s[0]] + t;
        assert ([s[0]] + t)[1..] == t;
      }
    }
  }

  /** The `clean_title` of `download_youtube_audio`. */
  function CleanTitle(title: string): (slug: string)
    ensures IsSlug(slug)
  {
    var kept := RemoveDisallowed(title);
    var stripped := Strip(kept);
    StripKeepsKept(kept);
    CollapseSlugged(stripped);
    SluggedIsSlug(CollapseSeparators(stripped));
    CollapseSeparators(stripped)
  }

  // ---------------------------------------------------------------------------
  // Idempotence
  // ---------------------------------------------------------------------------

  /** Collapsing leaves a slug alone: it has no whitespace and no run of dashes. */
  lemma {:induction false} CollapseSlug(s: string)
    requires Slugged(s)
    ensures CollapseSeparators(s) == s
    decreases |s|
  {
    if s != [] {
      CollapseSlug(s[1..]);
      if IsSeparator(s[0]) {
        ClassesDisjoint();
        assert s[0] == '-';
        assert s[1..] == [] || !IsSeparator(s[1..][0]);
        assert SkipSeparators(s[1..]) == s[1..];
      }
      assert [s[0]] + s[1..] == s;
    }
  }

  /** A slug is its own cleaned title. */
  lemma SlugIsCleaned(s: string)
    requires IsSlug(s)
    ensures CleanTitle(s) == s
  {
    ClassesDisjoint();
    assert RemoveDisallowed(s) == s;
    assert Strip(s) == s;
    SluggedIsSlug(s);
    CollapseSlug(s);
  }

  /** Cleaning a cleaned title changes nothing. */
  lemma CleanTitleIdempotent(title: string)
    ensures CleanTitle(CleanTitle(title)) == CleanTitle(title)
  {
    SlugIsCleaned(CleanTitle(title));
  }

  // ---------------------------------------------------------------------------
  // What each substitution does
  // ---------------------------------------------------------------------------

  /** The first substitution works character by character: it keeps or drops each one. */
  lemma {:induction false} RemoveDisallowedAppend(a: string, b: string)
    ensures RemoveDisallowed(a + b) == RemoveDisallowed(a) + RemoveDisallowed(b)
  {
    if a == [] {
      assert a + b == b;
    } else {
      assert (a + b)[0] == a[0];
      assert (a + b)[1..] == a[1..] + b;
      RemoveDisallowedAppend(a[1..], b);
    }
  }

  lemma RemoveDisallowedChar(c: char)
    ensures RemoveDisallowed([c]) == if IsKept(c) then [c] else []
  {
    assert [c][1..] == [];
  }

  /** A run of separators followed by a non-separator is skipped entirely. */
  lemma {:induction false} SkipSeparatorsRun(run: string, b: string)
    requires forall i :: 0 <= i < |run| ==> IsSeparator(run[i])
    requires b == [] || !IsSeparator(b[0])
    ensures SkipSeparators(run + b) == b
  {
    if run == [] {
      assert run + b == b;
    } else {
      assert (run + b)[0] == run[0];
      assert (run + b)[1..] == run[1..] + b;
      SkipSeparatorsRun(run[1..], b);
    }
  }

  /** Skipping separators stops inside `x` when `x` ends with a non-separator. */
  lemma {:induction false} SkipSeparatorsAppend(x: string, b: string)
    requires x != [] && !IsSeparator(x[|x| - 1])
    ensures SkipSeparators(x + b) == SkipSeparators(x) + b
  {
    assert (x + b)[0] == x[0];
    if IsSeparator(x[0]) {
      assert (x + b)[1..] == x[1..] + b;
      SkipSeparatorsAppend(x[1..], b);
    }
  }

  /** A non-empty run of separators becomes one `-`. */
  lemma CollapseRun(run: string, b: string)
    requires run != [] && forall i :: 0 <= i < |run| ==> IsSeparator(run[i])
    requires b == [] || !IsSeparator(b[0])
    ensures CollapseSeparators(run + b) == "-" + CollapseSeparators(b)
  {
    assert (run + b)[0] == run[0];
    assert (run + b)[1..] == run[1..] + b;
    SkipSeparatorsRun(run[1..], b);
  }

  /** Collapsing splits at a point where no run of separators is cut in two. */
  lemma {:induction false} CollapseAppend(a: string, b: string)
    requires a == [] || !IsSeparator(a[|a| - 1])
    ensures CollapseSeparators(a + b) == CollapseSeparators(a) + CollapseSeparators(b)
    decreases |a|
  {
    var ab := a + b;
    if a == [] {
      assert ab == b;
    } else if IsSeparator(a[0]) {
      assert ab[0] == a[0] && ab[1..] == a[1..] + b;
      var m := SkipSeparators(a[1..]);
      SkipSeparatorsAppend(a[1..], b);
      assert m != [] && m[|m| - 1] == a[|a| - 1];
      CollapseAppend(m, b);
      var cm, cb := CollapseSeparators(m), CollapseSeparators(b);
      calc {
        CollapseSeparators(ab);
        "-" + CollapseSeparators(m + b);
        "-" + (cm + cb);
        ("-" + cm) + cb;
        CollapseSeparators(a) + cb;
      }
    } else {
      assert ab[0] == a[0] && ab[1..] == a[1..] + b;
      CollapseAppend(a[1..], b);
      var ct, cb := CollapseSeparators(a[1..]), CollapseSeparators(b);
      calc {
        CollapseSeparators(ab);
        [a[0]] + CollapseSeparators(a[1..] + b);
        [a[0]] + (ct + cb);
        ([a[0]] + ct) + cb;
        CollapseSeparators(a) + cb;
      }
    }
  }

  /**
   A maximal run of separators between two parts becomes a single `-`, and the
   parts are collapsed on their own.
   */
  lemma CollapseRunBetween(a: string, run: string, b: string)
    requires a == [] || !IsSeparator(a[|a| - 1])
    requires run != [] && forall i :: 0 <= i < |run| ==> IsSeparator(run[i])
    requires b == [] || !IsSeparator(b[0])
    ensures CollapseSeparators(a + run + b) == CollapseSeparators(a) + "-" + CollapseSeparators(b)
  {
    var tail := run + b;
    assert a + run + b == a + tail;
    CollapseAppend(a, tail);
    CollapseRun(run, b);
    SeqAssoc(CollapseSeparators(a), "-", CollapseSeparators(b));
  }

  /**
   Regrouping a concatenation. Kept as a lemma of its own: asserted inline
   next to the collapsing facts above, it exhausts the solver's resources.
   */
  lemma SeqAssoc(x: string, y: string, z: string)
    ensures x + (y + z) == x + y + z
  {
  }

  /** A string of word characters is left alone by the collapsing. */
  lemma CollapseWord(w: string)
    requires forall i :: 0 <= i < |w| ==> IsWordChar(w[i])
    ensures CollapseSeparators(w) == w
  {
    ClassesDisjoint();
    assert IsSlug(w);
    SluggedIsSlug(w);
    CollapseSlug(w);
  }

  /**
   Two slugs with a run of whitespace and dashes between them clean to the two
   slugs joined by one `-`: `"a b"` becomes `"a-b"`.
   */
  lemma CleanTitleJoinsWords(a: string, run: string, b: string)
    requires IsSlug(a) && a != [] && IsWordChar(a[|a| - 1])
    requires run != [] && forall i :: 0 <= i < |run| ==> IsSeparator(run[i])
    requires IsSlug(b) && b != [] && IsWordChar(b[0])
    ensures CleanTitle(a + run + b) == a + "-" + b
  {
    ClassesDisjoint();
    var s := a + run + b;
    forall i | 0 <= i < |s|
      ensures IsKept(s[i])
    {
      if i < |a| {
        assert s[i] == a[i];
      } else if i < |a| + |run| {
        assert s[i] == run[i - |a|];
      } else {
        assert s[i] == b[i - |a| - |run|];
      }
    }
    assert RemoveDisallowed(s) == s;
    assert s[0] == a[0] && s[|s| - 1] == b[|b| - 1];
    assert Strip(s) == s;
    CollapseRunBetween(a, run, b);
    SluggedIsSlug(a);
    SluggedIsSlug(b);
    CollapseSlug(a);
    CollapseSlug(b);
  }

  /** ASCII letters are word characters. */
  lemma LettersAreWordChars(w: string)
    requires forall i :: 0 <= i < |w| ==> 'A' <= w[i] <= 'Z' || 'a' <= w[i] <= 'z'
    ensures forall i :: 0 <= i < |w| ==> IsWordChar(w[i]) && !IsSeparator(w[i])
  {
    ClassesDisjoint();
    forall i | 0 <= i < |w|
      ensures IsWordChar(w[i])
    {
      WordCases(w[i]);
    }
  }

  /** Letters and spaces are all kept. */
  lemma LettersAndSpacesKept(w: string)
    requires forall i :: 0 <= i < |w| ==> 'A' <= w[i] <= 'Z' || 'a' <= w[i] <= 'z' || w[i] == ' '
    ensures RemoveDisallowed(w) == w
  {
    forall i | 0 <= i < |w|
      ensures IsKept(w[i])
    {
      WordCases(w[i]);
      SpaceCases(w[i]);
    }
  }

  /** A disallowed character is dropped and nothing around it changes. */
  lemma RemoveDisallowedDropsOne(a: string, c: char, b: string)
    requires !IsKept(c)
    ensures RemoveDisallowed(a + [c] + b) == RemoveDisallowed(a) + RemoveDisallowed(b)
  {
    RemoveDisallowedAppend(a + [c], b);
    RemoveDisallowedAppend(a, [c]);
    RemoveDisallowedChar(c);
  }

  // The examples below receive their literal through a `requires` on a
  // parameter: a literal written as the argument of these recursive functions
  // is unfolded character by character by the solver, which then runs out of
  // resources.

  /** The parentheses of `"My Song (Live)"` are dropped, its spaces kept. */
  lemma ExampleRemoveDisallowed(head: string, live: string, title: string)
    requires head == "My Song " && live == "Live" && title == head + "(" + live + ")"
    ensures RemoveDisallowed(title) == head + live
  {
    assert !IsKept('(') && !IsKept(')') by {
      SpaceCases('(');
      SpaceCases(')');
      WordCases('(');
      WordCases(')');
    }
    var mid := head + "(" + live;
    assert RemoveDisallowed(mid) == head + live by {
      LettersAndSpacesKept(head);
      LettersAndSpacesKept(live);
      assert mid == head + ['('] + live;
      RemoveDisallowedDropsOne(head, '(', live);
    }
    assert title == mid + [')'] + [];
    RemoveDisallowedDropsOne(mid, ')', []);
  }

  /** Each space between two words becomes a dash. */
  lemma ExampleCollapse(s: string)
    requires s == "My Song Live"
    ensures CollapseSeparators(s) == "My-Song-Live"
  {
    var my, song, live := "My", "Song", "Live";
    var rest := song + " " + live;
    assert CollapseSeparators(rest) == song + "-" + live by {
      LettersAreWordChars(song);
      LettersAreWordChars(live);
      SpaceCases(' ');
      CollapseRunBetween(song, " ", live);
      CollapseWord(song);
      CollapseWord(live);
    }
    assert CollapseSeparators(my + " " + rest) == my + "-" + CollapseSeparators(rest) by {
      LettersAreWordChars(my);
      SpaceCases(' ');
      assert rest[0] == 'S';
      WordCases('S');
      ClassesDisjoint();
      CollapseRunBetween(my, " ", rest);
      CollapseWord(my);
    }
    assert s == my + " " + rest;
    assert my + "-" + (song + "-" + live) == "My-Song-Live";
  }

  /** Punctuation is dropped, the spaces become dashes. */
  lemma ExampleCleanTitle(title: string)
    requires title == "My Song (Live)"
    ensures CleanTitle(title) == "My-Song-Live"
  {
    var head, live := "My Song ", "Live";
    var y := head + live;
    assert y == "My Song Live";
    assert title == head + "(" + live + ")";
    assert RemoveDisallowed(title) == y by {
      ExampleRemoveDisallowed(head, live, title);
    }
    assert Strip(y) == y by {
      assert y[0] == 'M' && y[|y| - 1] == 'e';
      SpaceCases('M');
      SpaceCases('e');
    }
    assert CollapseSeparators(y) == "My-Song-Live" by {
      ExampleCollapse(y);
    }
    assert CleanTitle(title) == CollapseSeparators(Strip(RemoveDisallowed(title)));
  }

  /** Two words with a space between them. */
  lemma ExampleTwoWords(title: string)
    requires title == "a b"
    ensures CleanTitle(title) == "a-b"
  {
    var a, b := "a", "b";
    assert title == a + " " + b;
    LettersAreWordChars(a);
    LettersAreWordChars(b);
    SpaceCases(' ');
    ClassesDisjoint();
    CleanTitleJoinsWords(a, " ", b);
  }

  // ---------------------------------------------------------------------------
  // Nothing but separators and disallowed characters is lost
  // ---------------------------------------------------------------------------

  lemma {:induction false} WordCharsAppend(a: string, b: string)
    ensures WordChars(a + b) == WordChars(a) + WordChars(b)
  {
    if a == [] {
      assert a + b == b;
    } else {
      assert (a + b)[0] == a[0];
      assert (a + b)[1..] == a[1..] + b;
      WordCharsAppend(a[1..], b);
    }
  }

  /** A string with no word character contributes none. */
  lemma {:induction false} WordCharsNone(s: string)
    requires forall i :: 0 <= i < |s| ==> !IsWordChar(s[i])
    ensures WordChars(s) == []
  {
    if s != [] {
      WordCharsNone(s[1..]);
    }
  }

  lemma {:induction false} RemoveDisallowedKeepsWords(s: string)
    ensures WordChars(RemoveDisallowed(s)) == WordChars(s)
  {
    if s != [] {
      RemoveDisallowedKeepsWords(s[1..]);
      var head := if IsKept(s[0]) then [s[0]] else [];
      WordCharsAppend(head, RemoveDisallowed(s[1..]));
      assert WordChars(head) == (if IsWordChar(s[0]) then [s[0]] else []);
    }
  }

  /** Leading whitespace holds no word character. */
  lemma SkipSpacesKeepsWords(s: string)
    ensures WordChars(SkipSpaces(s)) == WordChars(s)
  {
    ClassesDisjoint();
    var t := SkipSpaces(s);
    var gap := s[..|s| - |t|];
    assert s == gap + t;
    assert forall i :: 0 <= i < |gap| ==> gap[i] == s[i];
    WordCharsAppend(gap, t);
    WordCharsNone(gap);
  }

  /** Trailing whitespace holds no word character. */
  lemma SkipTrailingKeepsWords(s: string)
    ensures WordChars(SkipTrailingSpaces(s)) == WordChars(s)
  {
    ClassesDisjoint();
    var r := SkipTrailingSpaces(s);
    var gap := s[|r|..];
    assert s == r + gap;
    assert forall i :: 0 <= i < |gap| ==> gap[i] == s[|r| + i];
    WordCharsAppend(r, gap);
    WordCharsNone(gap);
  }

  lemma StripKeepsWords(s: string)
    ensures WordChars(Strip(s)) == WordChars(s)
  {
    SkipSpacesKeepsWords(s);
    SkipTrailingKeepsWords(SkipSpaces(s));
  }

  /** Skipping separators skips no word character. */
  lemma SkipSeparatorsKeepsWords(s: string)
    ensures WordChars(SkipSeparators(s)) == WordChars(s)
  {
    ClassesDisjoint();
    var rest := SkipSeparators(s);
    var gap := s[..|s| - |rest|];
    assert s == gap + rest;
    assert forall i :: 0 <= i < |gap| ==> gap[i] == s[i];
    WordCharsAppend(gap, rest);
    WordCharsNone(gap);
  }

  lemma WordCharsCons(c: char, s: string)
    ensures WordChars([c] + s) == (if IsWordChar(c) then [c] else []) + WordChars(s)
  {
    assert ([c] + s)[0] == c;
    assert ([c] + s)[1..] == s;
  }

  /** A leading separator is not a word character. */
  lemma SeparatorHeadKeepsWords(s: string)
    requires s != [] && IsSeparator(s[0])
    ensures WordChars(s) == WordChars(s[1..])
  {
    ClassesDisjoint();
    assert !IsWordChar(s[0]);
  }

  lemma {:induction false} CollapseKeepsWords(s: string)
    ensures WordChars(CollapseSeparators(s)) == WordChars(s)
    decreases |s|
  {
    if s != [] {
      if IsSeparator(s[0]) {
        var rest := SkipSeparators(s[1..]);
        CollapseKeepsWords(rest);
        SkipSeparatorsKeepsWords(s[1..]);
        SeparatorHeadKeepsWords(s);
        ClassesDisjoint();
        WordCharsCons('-', CollapseSeparators(rest));
      } else {
        CollapseKeepsWords(s[1..]);
        WordCharsCons(s[0], CollapseSeparators(s[1..]));
      }
    }
  }

  /** Cleaning keeps every word character of the title, in order; it drops only the rest. */
  lemma CleanTitleKeepsWords(title: string)
    ensures WordChars(CleanTitle(title)) == WordChars(title)
  {
    RemoveDisallowedKeepsWords(title);
    StripKeepsWords(RemoveDisallowed(title));
    CollapseKeepsWords(Strip(RemoveDisallowed(title)));
  }

  // ---------------------------------------------------------------------------
  // When the cleaned title is empty
  // ---------------------------------------------------------------------------

  lemma {:induction false} RemoveDisallowedFindsKept(s: string, i: nat)
    requires i < |s| && (IsWordChar(s[i]) || s[i] == '-')
    ensures exists j :: 0 <= j < |RemoveDisallowed(s)| && !IsSpace(RemoveDisallowed(s)[j])
  {
    if i == 0 {
      ClassesDisjoint();
      assert RemoveDisallowed(s)[0] == s[0];
    } else {
      RemoveDisallowedFindsKept(s[1..], i - 1);
      var j :| 0 <= j < |RemoveDisallowed(s[1..])| && !IsSpace(RemoveDisallowed(s[1..])[j]);
      var head := if IsKept(s[0]) then [s[0]] else [];
      assert RemoveDisallowed(s)[|head| + j] == RemoveDisallowed(s[1..])[j];
    }
  }

  /** A string with a non-space character does not strip to nothing. */
  lemma StripNonEmpty(s: string, j: nat)
    requires j < |s| && !IsSpace(s[j])
    ensures Strip(s) != []
  {
    var t := SkipSpaces(s);
    assert j >= |s| - |t|;
    assert t != [] && !IsSpace(t[0]);
    assert SkipTrailingSpaces(t) != [];
  }

  /** A string of whitespace strips to nothing. */
  lemma StripAllSpace(s: string)
    requires forall i :: 0 <= i < |s| ==> IsSpace(s[i])
    ensures Strip(s) == []
  {
  }

  /**
   The cleaned title is empty exactly when the title has no word character and
   no `-`: a title of whitespace and punctuation only.
   */
  lemma CleanTitleEmpty(title: string)
    ensures CleanTitle(title) == [] <==>
      forall i :: 0 <= i < |title| ==> !IsWordChar(title[i]) && title[i] != '-'
  {
    var kept := RemoveDisallowed(title);
    if exists i :: 0 <= i < |title| && (IsWordChar(title[i]) || title[i] == '-') {
      var i :| 0 <= i < |title| && (IsWordChar(title[i]) || title[i] == '-');
      RemoveDisallowedFindsKept(title, i);
      var j :| 0 <= j < |kept| && !IsSpace(kept[j]);
      StripNonEmpty(kept, j);
    } else {
      forall i | 0 <= i < |kept|
        ensures IsSpace(kept[i])
      {
        assert IsKept(kept[i]) && kept[i] in title;
      }
      StripAllSpace(kept);
    }
  }
}
