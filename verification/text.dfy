/**
 The Python `str` operations the script relies on: the character classes
 behind `\w`, `\s`, `str.isspace` and `str.lower`, substring containment
 (`in`), `str.split(sep)`, `str.split()` and `str.replace`.
 */
module Text {

  // ---------------------------------------------------------------------------
  // Character classes
  // ---------------------------------------------------------------------------

  /*
   The three classes below are tables of code-point ranges. Each is reached
   through `InClass(c, table, 1)`, a recursion on a depth counter that returns
   the table lookup at depth 0: the verifier then unfolds a class only where a
   proof asks for it (through SpaceCases, WordCases and UpperCases), instead
   of at every character it meets.
   */

  /** `c` lies in one of the inclusive ranges `ranges[k..]`. */
  predicate InRanges(c: char, ranges: seq<(char, char)>, k: nat)
    decreases |ranges| - k
  {
    k < |ranges| && ((ranges[k].0 <= c <= ranges[k].1) || InRanges(c, ranges, k + 1))
  }

  predicate InClass(c: char, ranges: seq<(char, char)>, depth: nat)
  {
    if depth == 0 then InRanges(c, ranges, 0) else InClass(c, ranges, depth - 1)
  }

  lemma {:induction false} InRangesIff(c: char, ranges: seq<(char, char)>, k: nat)
    ensures InRanges(c, ranges, k) <==> exists j :: k <= j < |ranges| && ranges[j].0 <= c <= ranges[j].1
    decreases |ranges| - k
  {
    if k < |ranges| {
      InRangesIff(c, ranges, k + 1);
    }
  }

  /** The code points for which Python's `str.isspace` holds. */
  const SpaceRanges: seq<(char, char)> := [
    ('\U{9}', '\U{D}'), ('\U{1C}', '\U{20}'), ('\U{85}', '\U{85}'), ('\U{A0}', '\U{A0}'),
    ('\U{1680}', '\U{1680}'), ('\U{2000}', '\U{200A}'), ('\U{2028}', '\U{2029}'),
    ('\U{202F}', '\U{202F}'), ('\U{205F}', '\U{205F}'), ('\U{3000}', '\U{3000}')]

  /**
   The code points up to U+00FF that the `\w` class of `re` matches on `str`
   patterns: letters, digits (with the superscripts and vulgar fractions of
   Latin-1) and the underscore.
   */
  const WordRanges: seq<(char, char)> := [
    ('0', '9'), ('A', 'Z'), ('_', '_'), ('a', 'z'), ('\U{AA}', '\U{AA}'), ('\U{B2}', '\U{B3}'),
    ('\U{B5}', '\U{B5}'), ('\U{B9}', '\U{BA}'), ('\U{BC}', '\U{BE}'), ('\U{C0}', '\U{D6}'),
    ('\U{D8}', '\U{F6}'), ('\U{F8}', '\U{FF}')]

  /** The code points up to U+00FF that `str.lower` changes. */
  const UpperRanges: seq<(char, char)> := [('A', 'Z'), ('\U{C0}', '\U{D6}'), ('\U{D8}', '\U{DE}')]

  /** Python's `str.isspace` (and the `\s` class of `re` on `str` patterns). */
  predicate IsSpace(c: char)
  {
    InClass(c, SpaceRanges, 1)
  }

  /** The `\w` class of `re`; characters above U+00FF count as non-word characters. */
  predicate IsWordChar(c: char)
  {
    InClass(c, WordRanges, 1)
  }

  predicate IsUpper(c: char)
  {
    InClass(c, UpperRanges, 1)
  }

  /** Whitespace, in full. */
  lemma SpaceCases(c: char)
    ensures IsSpace(c) <==>
      ('\U{9}' <= c <= '\U{D}') || ('\U{1C}' <= c <= '\U{20}') || c == '\U{85}' || c == '\U{A0}' ||
      c == '\U{1680}' || ('\U{2000}' <= c <= '\U{200A}') || c == '\U{2028}' || c == '\U{2029}' ||
      c == '\U{202F}' || c == '\U{205F}' || c == '\U{3000}'
  {
    assert IsSpace(c) == InClass(c, SpaceRanges, 0) == InRanges(c, SpaceRanges, 0);
    InRangesIff(c, SpaceRanges, 0);
    assert SpaceRanges[0].0 <= SpaceRanges[1].0 <= SpaceRanges[2].0 <= SpaceRanges[3].0 <= SpaceRanges[4].0;
    assert SpaceRanges[5].0 <= SpaceRanges[6].0 <= SpaceRanges[7].0 <= SpaceRanges[8].0 <= SpaceRanges[9].0;
    if IsSpace(c) {
      var k :| 0 <= k < |SpaceRanges| && SpaceRanges[k].0 <= c <= SpaceRanges[k].1;
      assert k in {0, 1, 2, 3, 4, 5, 6, 7, 8, 9};
    }
  }

  /** Word characters, in full. */
  lemma WordCases(c: char)
    ensures IsWordChar(c) <==>
      ('0' <= c <= '9') || ('A' <= c <= 'Z') || c == '_' || ('a' <= c <= 'z') || c == '\U{AA}' ||
      ('\U{B2}' <= c <= '\U{B3}') || c == '\U{B5}' || ('\U{B9}' <= c <= '\U{BA}') ||
      ('\U{BC}' <= c <= '\U{BE}') || ('\U{C0}' <= c <= '\U{D6}') || ('\U{D8}' <= c <= '\U{F6}') ||
      ('\U{F8}' <= c <= '\U{FF}')
  {
    assert IsWordChar(c) == InClass(c, WordRanges, 0) == InRanges(c, WordRanges, 0);
    InRangesIff(c, WordRanges, 0);
    assert WordRanges[0].0 <= WordRanges[1].0 <= WordRanges[2].0 <= WordRanges[3].0 <= WordRanges[4].0;
    assert WordRanges[5].0 <= WordRanges[6].0 <= WordRanges[7].0 <= WordRanges[8].0 <= WordRanges[9].0;
    assert WordRanges[10].0 <= WordRanges[11].0;
    if IsWordChar(c) {
      var k :| 0 <= k < |WordRanges| && WordRanges[k].0 <= c <= WordRanges[k].1;
      assert k in {0, 1, 2, 3, 4, 5, 6, 7, 8, 9, 10, 11};
    }
  }

  /** Upper-case letters of Latin-1, in full. */
  lemma UpperCases(c: char)
    ensures IsUpper(c) <==> ('A' <= c <= 'Z') || ('\U{C0}' <= c <= '\U{D6}') || ('\U{D8}' <= c <= '\U{DE}')
  {
    assert IsUpper(c) == InClass(c, UpperRanges, 0) == InRanges(c, UpperRanges, 0);
    InRangesIff(c, UpperRanges, 0);
    assert UpperRanges[0].0 <= UpperRanges[1].0 <= UpperRanges[2].0;
    if IsUpper(c) {
      var k :| 0 <= k < |UpperRanges| && UpperRanges[k].0 <= c <= UpperRanges[k].1;
      assert k in {0, 1, 2};
    }
  }

  /** The three classes the title cleaning distinguishes do not overlap. */
  lemma ClassesDisjoint()
    ensures forall c :: IsWordChar(c) ==> !IsSpace(c)
    ensures !IsWordChar('-') && !IsSpace('-')
  {
    forall c | IsWordChar(c)
      ensures !IsSpace(c)
    {
      SpaceCases(c);
      WordCases(c);
    }
    SpaceCases('-');
    WordCases('-');
  }

  /** Python's `str.lower` on one character, exact for code points up to U+00FF. */
  function Lower(c: char): (r: char)
    ensures IsSpace(r) <==> IsSpace(c)
    ensures IsWordChar(r) <==> IsWordChar(c)
    ensures !IsUpper(r)
    ensures !IsUpper(c) ==> r == c
    ensures IsUpper(c) ==> r as int == c as int + 32
  {
    UpperCases(c);
    if IsUpper(c) then
      var r := (c as int + 32) as char;
      SpaceCases(c);
      SpaceCases(r);
      WordCases(c);
      WordCases(r);
      UpperCases(r);
      r
    else c
  }

  /** Python's `str.lower`. */
  function LowerStr(s: string): (r: string)
    ensures |r| == |s|
    ensures forall i :: 0 <= i < |s| ==> r[i] == Lower(s[i])
  {
    if s == [] then [] else [Lower(s[0])] + LowerStr(s[1..])
  }

  // ---------------------------------------------------------------------------
  // Substring containment: Python's `needle in haystack`
  // ---------------------------------------------------------------------------

  predicate IsPrefix(p: string, s: string)
  {
    |p| <= |s| && s[..|p|] == p
  }

  /** `needle in hay`: some suffix of `hay` starts with `needle`. */
  predicate Contains(hay: string, needle: string)
    ensures Contains(hay, needle) ==> |needle| <= |hay|
    decreases |hay|
  {
    IsPrefix(needle, hay) || (hay != [] && Contains(hay[1..], needle))
  }

  /** `needle` occurs in `hay` starting at offset `k`. */
  predicate OccursAt(hay: string, needle: string, k: int)
  {
    0 <= k && k + |needle| <= |hay| && hay[k..k + |needle|] == needle
  }

  /** `in` means: `needle` occurs at some offset of `hay`. */
  lemma {:induction false} ContainsIff(hay: string, needle: string)
    ensures Contains(hay, needle) <==> exists k :: OccursAt(hay, needle, k)
    decreases |hay|
  {
    if IsPrefix(needle, hay) {
      assert OccursAt(hay, needle, 0);
    }
    if hay != [] {
      ContainsIff(hay[1..], needle);
      if Contains(hay[1..], needle) {
        var k :| OccursAt(hay[1..], needle, k);
        assert hay[k + 1..k + 1 + |needle|] == hay[1..][k..k + |needle|];
        assert OccursAt(hay, needle, k + 1);
      }
      if exists k :: OccursAt(hay, needle, k) {
        var k :| OccursAt(hay, needle, k);
        if k > 0 {
          assert hay[1..][k - 1..k - 1 + |needle|] == hay[k..k + |needle|];
          assert OccursAt(hay[1..], needle, k - 1);
        }
      }
    }
  }

  lemma EmptyIsContained(hay: string)
    ensures Contains(hay, [])
  {
    assert hay[..0] == [];
  }

  // ---------------------------------------------------------------------------
  // `str.split(sep)` and its inverse `sep.join(parts)`
  // ---------------------------------------------------------------------------

  /** Number of occurrences of `c` in `s`. */
  function Occurrences(s: string, c: char): nat
  {
    if s == [] then 0 else (if s[0] == c then 1 else 0) + Occurrences(s[1..], c)
  }

  /** Python's `s.split(sep)` for a one-character separator: never empty. */
  function Split(s: string, sep: char): (parts: seq<string>)
    ensures |parts| >= 1
  {
    if s == [] then [[]]
    else
      var rest := Split(s[1..], sep);
      if s[0] == sep then [[]] + rest
      else [[s[0]] + rest[0]] + rest[1..]
  }

  /** Python's `sep.join(parts)`. */
  function Join(parts: seq<string>, sep: char): string
  {
    if |parts| == 0 then []
    else if |parts| == 1 then parts[0]
    else parts[0] + [sep] + Join(parts[1..], sep)
  }

  /** `split` cuts at every separator: one more part than separators, none containing one. */
  lemma {:induction false} SplitShape(s: string, sep: char)
    ensures |Split(s, sep)| == Occurrences(s, sep) + 1
    ensures forall i :: 0 <= i < |Split(s, sep)| ==> sep !in Split(s, sep)[i]
  {
    if s != [] {
      SplitShape(s[1..], sep);
    }
  }

  /** Joining the parts with the separator gives back the original string. */
  lemma {:induction false} JoinSplit(s: string, sep: char)
    ensures Join(Split(s, sep), sep) == s
  {
    if s != [] {
      JoinSplit(s[1..], sep);
      var rest := Split(s[1..], sep);
      if s[0] == sep {
        assert Join([[]] + rest, sep) == [] + [sep] + Join(rest, sep);
      } else {
        var parts := [[s[0]] + rest[0]] + rest[1..];
        if |rest| == 1 {
          assert parts == [[s[0]] + rest[0]];
        } else {
          assert parts[1..] == rest[1..];
          assert Join(rest, sep) == rest[0] + [sep] + Join(rest[1..], sep);
        }
      }
    }
  }

  /** A string without the separator splits into itself alone. */
  lemma {:induction false} SplitNoSeparator(s: string, sep: char)
    requires sep !in s
    ensures Split(s, sep) == [s]
  {
    if s != [] {
      SplitNoSeparator(s[1..], sep);
      assert [s[0]] + s[1..] == s;
    }
  }

  /** Splitting `a + sep + b` where `a` has no separator puts `a` first. */
  lemma {:induction false} SplitAtFirst(a: string, sep: char, b: string)
    requires sep !in a
    ensures Split(a + [sep] + b, sep) == [a] + Split(b, sep)
  {
    if a == [] {
      assert [] + [sep] + b == [sep] + b;
      assert ([sep] + b)[1..] == b;
    } else {
      assert (a + [sep] + b)[1..] == a[1..] + [sep] + b;
      SplitAtFirst(a[1..], sep, b);
      assert [a[0]] + a[1..] == a;
    }
  }

  /** Splitting loses only separators: every other character lands in some part. */
  lemma {:induction false} SplitKeepsChars(s: string, sep: char, i: nat)
    requires i < |s| && s[i] != sep
    ensures exists k :: 0 <= k < |Split(s, sep)| && s[i] in Split(s, sep)[k]
  {
    var parts := Split(s, sep);
    var rest := Split(s[1..], sep);
    if i == 0 {
      assert parts[0] == [s[0]] + rest[0];
      assert s[0] in parts[0];
    } else {
      SplitKeepsChars(s[1..], sep, i - 1);
      var k :| 0 <= k < |rest| && s[1..][i - 1] in rest[k];
      if s[0] == sep {
        assert parts[k + 1] == rest[k];
      } else if k == 0 {
        assert parts[0] == [s[0]] + rest[0];
      } else {
        assert parts[k] == rest[k];
      }
    }
  }

  // ---------------------------------------------------------------------------
  // `str.split()` with no argument: words separated by runs of whitespace
  // ---------------------------------------------------------------------------

  /** Drops the leading whitespace of `s`. */
  function SkipSpaces(s: string): (r: string)
    ensures |r| <= |s|
    ensures r == s[|s| - |r|..]
    ensures r == [] || !IsSpace(r[0])
    ensures forall i :: 0 <= i < |s| - |r| ==> IsSpace(s[i])
  {
    if s != [] && IsSpace(s[0]) then SkipSpaces(s[1..]) else s
  }

  /** The longest prefix of `s` with no whitespace. */
  function WordPrefix(s: string): (w: string)
    ensures |w| <= |s|
  {
    if s == [] || IsSpace(s[0]) then [] else [s[0]] + WordPrefix(s[1..])
  }

  /** Python's `s.split()`: non-empty words containing no whitespace. */
  function SplitWords(s: string): (words: seq<string>)
    ensures forall i :: 0 <= i < |words| ==>
      words[i] != [] && forall j :: 0 <= j < |words[i]| ==> !IsSpace(words[i][j])
    decreases |s|
  {
    var t := SkipSpaces(s);
    if t == [] then []
    else
      var w := WordPrefix(t);
      WordPrefixNonEmpty(t);
      WordPrefixShape(t);
      WordsCons(w, SplitWords(t[|w|..]));
      [w] + SplitWords(t[|w|..])
  }

  /** A non-empty word without whitespace in front of such words. */
  lemma WordsCons(w: string, rest: seq<string>)
    requires w != [] && forall j :: 0 <= j < |w| ==> !IsSpace(w[j])
    requires forall i :: 0 <= i < |rest| ==>
      rest[i] != [] && forall j :: 0 <= j < |rest[i]| ==> !IsSpace(rest[i][j])
    ensures forall i :: 0 <= i < |[w] + rest| ==>
      ([w] + rest)[i] != [] && forall j :: 0 <= j < |([w] + rest)[i]| ==> !IsSpace(([w] + rest)[i][j])
  {
    forall i | 0 <= i < |[w] + rest|
      ensures ([w] + rest)[i] != [] && forall j :: 0 <= j < |([w] + rest)[i]| ==> !IsSpace(([w] + rest)[i][j])
    {
      if i > 0 {
        assert ([w] + rest)[i] == rest[i - 1];
      }
    }
  }

  lemma {:induction false} WordPrefixNonEmpty(s: string)
    requires s != [] && !IsSpace(s[0])
    ensures |WordPrefix(s)| > 0
  {
  }

  lemma {:induction false} WordPrefixShape(s: string)
    ensures forall i :: 0 <= i < |WordPrefix(s)| ==> !IsSpace(WordPrefix(s)[i])
    ensures WordPrefix(s) == s[..|WordPrefix(s)|]
  {
    if s != [] && !IsSpace(s[0]) {
      WordPrefixShape(s[1..]);
    }
  }

  /** Leading whitespace does not change the words. */
  lemma {:induction false} SkipSpacesAppend(sp: string, t: string)
    requires forall i :: 0 <= i < |sp| ==> IsSpace(sp[i])
    ensures SkipSpaces(sp + t) == SkipSpaces(t)
  {
    if sp != [] {
      assert (sp + t)[0] == sp[0] && IsSpace(sp[0]);
      assert (sp + t)[1..] == sp[1..] + t;
      assert forall i :: 0 <= i < |sp| - 1 ==> sp[1..][i] == sp[i + 1];
      SkipSpacesAppend(sp[1..], t);
    } else {
      assert sp + t == t;
    }
  }

  /** A whitespace-free word followed by whitespace (or nothing) is a whole word. */
  lemma {:induction false} WordPrefixAppend(w: string, rest: string)
    requires forall i :: 0 <= i < |w| ==> !IsSpace(w[i])
    requires rest == [] || IsSpace(rest[0])
    ensures WordPrefix(w + rest) == w
  {
    if w == [] {
      assert w + rest == rest;
    } else {
      assert (w + rest)[0] == w[0];
      assert (w + rest)[1..] == w[1..] + rest;
      WordPrefixAppend(w[1..], rest);
      assert [w[0]] + w[1..] == w;
    }
  }

  /** `split()` ignores leading whitespace. */
  lemma SplitWordsSkip(sp: string, t: string)
    requires forall i :: 0 <= i < |sp| ==> IsSpace(sp[i])
    ensures SplitWords(sp + t) == SplitWords(t)
  {
    SkipSpacesAppend(sp, t);
  }

  /**
   `split()` cuts a maximal whitespace-free run off the front as one word:
   together with `SplitWordsSkip` this determines the words of every string.
   */
  lemma SplitWordsCons(w: string, sp: string, t: string)
    requires w != [] && forall i :: 0 <= i < |w| ==> !IsSpace(w[i])
    requires forall i :: 0 <= i < |sp| ==> IsSpace(sp[i])
    requires sp != [] || t == []
    ensures SplitWords(w + sp + t) == [w] + SplitWords(t)
  {
    var x := w + sp + t;
    assert x == w + (sp + t);
    assert x[0] == w[0];
    assert SkipSpaces(x) == x;
    WordPrefixAppend(w, sp + t);
    assert x[|w|..] == sp + t;
    SplitWordsSkip(sp, t);
  }

  /** `s.split()` is empty exactly when `s` is all whitespace. */
  lemma {:induction false} SplitWordsEmpty(s: string)
    ensures SplitWords(s) == [] <==> forall i :: 0 <= i < |s| ==> IsSpace(s[i])
    decreases |s|
  {
    if s != [] {
      if IsSpace(s[0]) {
        SplitWordsEmpty(s[1..]);
        assert SkipSpaces(s) == SkipSpaces(s[1..]);
        assert forall i :: 1 <= i < |s| ==> s[i] == s[1..][i - 1];
      } else {
        WordPrefixNonEmpty(s);
      }
    }
  }

  // ---------------------------------------------------------------------------
  // `str.replace(old, new)` for single characters
  // ---------------------------------------------------------------------------

  /** Python's `s.replace(from, to)` with one-character arguments. */
  function ReplaceChar(s: string, from: char, to: char): (r: string)
    ensures |r| == |s|
    ensures forall i :: 0 <= i < |s| ==> r[i] == (if s[i] == from then to else s[i])
  {
    if s == [] then [] else [if s[0] == from then to else s[0]] + ReplaceChar(s[1..], from, to)
  }

  /** Replacing a character is splitting on it and joining with its substitute. */
  lemma {:induction false} ReplaceIsSplitJoin(s: string, from: char, to: char)
    ensures ReplaceChar(s, from, to) == Join(Split(s, from), to)
  {
    if s != [] {
      ReplaceIsSplitJoin(s[1..], from, to);
      var rest := Split(s[1..], from);
      if s[0] == from {
        assert Join([[]] + rest, to) == [] + [to] + Join(rest, to);
      } else {
        var parts := [[s[0]] + rest[0]] + rest[1..];
        if |rest| == 1 {
          assert parts == [[s[0]] + rest[0]];
        } else {
          assert parts[1..] == rest[1..];
          assert Join(rest, to) == rest[0] + [to] + Join(rest[1..], to);
        }
      }
    }
  }
}
