/**
 The part of Python's `pathlib.PurePath` the script relies on: the last
 component of a `/`-separated path and its stem.
 */
module Paths {
  import opened Text

  /** The last component of a `/`-separated path: everything after the last `/`. */
  function BaseName(path: string): (name: string)
    ensures '/' !in name
    ensures |name| <= |path| && name == path[|path| - |name|..]
    ensures |name| < |path| ==> path[|path| - |name| - 1] == '/'
  {
    if path == [] || path[|path| - 1] == '/' then []
    else BaseName(path[..|path| - 1]) + [path[|path| - 1]]
  }

  /** `name.rfind(c)`: the last position of `c` in `name`, or -1. */
  function FindLast(name: string, c: char): (i: int)
    ensures -1 <= i < |name|
    ensures i == -1 <==> c !in name
    ensures 0 <= i ==> name[i] == c && forall j :: i < j < |name| ==> name[j] != c
  {
    if name == [] then -1
    else if name[|name| - 1] == c then |name| - 1
    else FindLast(name[..|name| - 1], c)
  }

  /**
   The stem of a file name: the name without its suffix, where the suffix
   starts at the last `.` when that is neither the first nor the last
   character; otherwise the whole name.
   */
  function NameStem(name: string): (stem: string)
    ensures IsPrefix(stem, name)
    ensures stem == name <==> FindLast(name, '.') <= 0 || FindLast(name, '.') == |name| - 1
    ensures stem != name ==>
      0 < |stem| && |stem| + 1 < |name| && name[|stem|] == '.' &&
      forall j :: |stem| < j < |name| ==> name[j] != '.'
  {
    var i := FindLast(name, '.');
    if 0 < i < |name| - 1 then name[..i] else name
  }

  /** `PurePath(path).stem`: the stem of the last component. */
  function PathStem(path: string): (stem: string)
    ensures '/' !in stem
  {
    var name := BaseName(path);
    var stem := NameStem(name);
    assert forall j :: 0 <= j < |stem| ==> stem[j] == name[j];
    stem
  }

  /** The last component of `dir + "/" + name` is `name` when `name` has no `/`. */
  lemma {:induction false} BaseNameOfJoin(dir: string, name: string)
    requires '/' !in name
    ensures BaseName(dir + "/" + name) == name
    decreases |name|
  {
    var path := dir + "/" + name;
    if name == [] {
      assert path[|path| - 1] == '/';
    } else {
      var init := name[..|name| - 1];
      assert path[..|path| - 1] == dir + "/" + init;
      BaseNameOfJoin(dir, init);
      assert path[|path| - 1] == name[|name| - 1];
      assert init + [name[|name| - 1]] == name;
    }
  }

  /** In `clean + ".mp3"` with no `.` in `clean`, the last `.` is the one of the suffix. */
  lemma LastDotOfMp3(clean: string)
    requires '.' !in clean
    ensures FindLast(clean + ".mp3", '.') == |clean|
  {
    var name := clean + ".mp3";
    assert name[|clean|] == '.';
    assert forall j :: |clean| < j < |name| ==> name[j] == ".mp3"[j - |clean|];
  }
}
