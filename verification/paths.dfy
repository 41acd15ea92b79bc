/**
 * Paths as the transcoder sees them: a folder and a final component, with the
 * suffix and stem that pathlib derives from the final component.
 */
module Paths {
  import opened Wrappers

  /** A file path: the folder it lives in and its final component (pathlib's `name`). */
  datatype Path = Path(dir: string, name: string)

  /** Python's `str.rfind('.')`: the index of the last dot in `name`, if any. */
  function LastDot(name: string): (r: Option<nat>)
    ensures r.Some? ==> r.value < |name| && name[r.value] == '.'
    ensures r.Some? ==> forall j :: r.value < j < |name| ==> name[j] != '.'
    ensures r.None? ==> forall j :: 0 <= j < |name| ==> name[j] != '.'
  {
    if name == [] then None
    else if name[|name| - 1] == '.' then Some(|name| - 1)
    else LastDot(name[..|name| - 1])
  }

  /**
   * Where pathlib splits a name into stem and suffix: at the last dot, provided
   * that dot is neither the first nor the last character.
   */
  function SplitPoint(name: string): Option<nat>
  {
    match LastDot(name)
    case Some(i) => if 0 < i < |name| - 1 then Some(i) else None
    case None => None
  }

  /** pathlib's `PurePath.suffix`: the final dot and what follows it, or "". */
  function Suffix(name: string): (r: string)
    ensures r == [] || (|r| >= 2 && r[0] == '.' && forall j :: 0 < j < |r| ==> r[j] != '.')
    ensures |r| < |name| || r == []
  {
    match SplitPoint(name)
    case Some(i) => name[i..]
    case None => ""
  }

  /** pathlib's `PurePath.stem`: the name without its suffix. */
  function Stem(name: string): (r: string)
    ensures r + Suffix(name) == name
    ensures name != [] ==> r != []
  {
    match SplitPoint(name)
    case Some(i) => name[..i]
    case None => name
  }

  /**
   * Renaming a file to `<stem>.mkv` gives a name whose suffix is `.mkv` and whose
   * stem is the original stem: the candidate output of a source is recognisable
   * from its name alone.
   */
  lemma {:induction false} WithMkvSuffix(name: string)
    requires name != []
    ensures Suffix(Stem(name) + ".mkv") == ".mkv"
    ensures Stem(Stem(name) + ".mkv") == Stem(name)
  {
    var stem := Stem(name);
    var renamed := stem + ".mkv";
    assert renamed[|stem|] == '.';
    assert forall j :: |stem| < j < |renamed| ==> renamed[j] != '.';
    assert LastDot(renamed) == Some(|stem|);
    assert SplitPoint(renamed) == Some(|stem|);
    assert renamed[|stem|..] == ".mkv";
    assert renamed[..|stem|] == stem;
  }

  /**
   * The suffix is a tail of the name, and it is non-empty exactly when the last
   * dot is neither the first nor the last character of the name.
   */
  lemma SuffixIsTail(name: string)
    ensures |Suffix(name)| <= |name| && Suffix(name) == name[|name| - |Suffix(name)|..]
    ensures Suffix(name) != [] <==> LastDot(name).Some? && 0 < LastDot(name).value < |name| - 1
  {
  }

  /**
   * A name has the suffix `x` (a dot and three non-dot characters) exactly when
   * it is longer than `x` and ends with it.
   */
  lemma EndsWithSuffix(name: string, x: string)
    requires |x| == 4 && x[0] == '.' && x[1] != '.' && x[2] != '.' && x[3] != '.'
    ensures Suffix(name) == x <==> |name| > 4 && name[|name| - 4..] == x
  {
    if |name| > 4 && name[|name| - 4..] == x {
      var i := |name| - 4;
      assert name[i] == '.';
      assert forall j :: i < j < |name| ==> name[j] != '.' by {
        forall j | i < j < |name| ensures name[j] != '.' {
          assert name[j] == x[j - i];
        }
      }
      assert LastDot(name) == Some(i);
    }
    SuffixIsTail(name);
  }

  /** The suffix comparison is exact: case is not folded. */
  lemma SuffixIsCaseSensitive()
    ensures Suffix("clip.MP4") == ".MP4" && Suffix("clip.MP4") != ".mp4"
    ensures Suffix("archive.tar.mkv") == ".mkv" && Stem("archive.tar.mkv") == "archive.tar"
    ensures Suffix(".mkv") == "" && Stem(".mkv") == ".mkv"
    ensures Suffix("clip.") == "" && Suffix("clip") == ""
  {
    var upper, nested, hidden, trailing := "clip.MP4", "archive.tar.mkv", ".mkv", "clip.";
    assert upper[4] == '.' && upper[5] != '.' && upper[6] != '.' && upper[7] != '.';
    assert nested[11] == '.' && nested[12] != '.' && nested[13] != '.' && nested[14] != '.';
    assert hidden[0] == '.' && hidden[1] != '.' && hidden[2] != '.' && hidden[3] != '.';
    assert trailing[4] == '.';
    assert upper[4..] == ".MP4";
    assert nested[11..] == ".mkv" && nested[..11] == "archive.tar";
  }
}
