/**
 * `get_file_list`: the enumerated paths whose suffix is one of the recognised
 * containers, sorted by modification time with a stable sort.
 */
module Catalog {
  import opened Paths

  /** One path produced by the recursive enumeration, with its modification time. */
  datatype Entry = Entry(path: Path, mtime: real)

  /** The recognised container suffixes, compared exactly (no case folding). */
  const VideoSuffixes: set<string> := {".mp4", ".mov", ".mkv", ".avi"}

  /**
   * `p.suffix in {…}`. Since every recognised suffix is a dot and three letters,
   * this holds exactly when the name is longer than four characters and ends
   * with one of them.
   */
  function IsVideo(e: Entry): (r: bool)
    ensures var n := e.path.name; r <==> |n| > 4 && n[|n| - 4..] in VideoSuffixes
  {
    var n := e.path.name;
    EndsWithSuffix(n, ".mp4");
    EndsWithSuffix(n, ".mov");
    EndsWithSuffix(n, ".mkv");
    EndsWithSuffix(n, ".avi");
    Suffix(n) in VideoSuffixes
  }

  /** `a` is `b` with some entries left out, the rest in their order in `b`. */
  ghost predicate SubsequenceOf(a: seq<Entry>, b: seq<Entry>)
    decreases |b|
  {
    || a == []
    || (b != [] && a[0] == b[0] && SubsequenceOf(a[1..], b[1..]))
    || (b != [] && SubsequenceOf(a, b[1..]))
  }

  /** The list comprehension: the video entries, in enumeration order. */
  function Videos(s: seq<Entry>): (r: seq<Entry>)
    ensures |r| <= |s|
    ensures forall i :: 0 <= i < |r| ==> IsVideo(r[i])
  {
    if s == [] then []
    else (if IsVideo(s[0]) then [s[0]] else []) + Videos(s[1..])
  }

  /** The comprehension keeps each video entry as often as it was enumerated, and nothing else. */
  lemma {:induction false} VideosCount(s: seq<Entry>)
    ensures forall e :: multiset(Videos(s))[e] == if IsVideo(e) then multiset(s)[e] else 0
  {
    if s != [] {
      assert s == [s[0]] + s[1..];
      VideosCount(s[1..]);
    }
  }

  /** The entries of `s` modified at time `t`, in their order in `s`. */
  function AtTime(s: seq<Entry>, t: real): seq<Entry>
  {
    if s == [] then []
    else (if s[0].mtime == t then [s[0]] else []) + AtTime(s[1..], t)
  }

  /** An entry is in the same-time subsequence exactly when it is in `s` with that time. */
  lemma {:induction false} InAtTime(s: seq<Entry>, t: real, e: Entry)
    ensures e in AtTime(s, t) <==> e in s && e.mtime == t
  {
    if s != [] {
      InAtTime(s[1..], t, e);
      assert s == [s[0]] + s[1..];
    }
  }

  predicate SortedByMtime(s: seq<Entry>)
  {
    forall i, j :: 0 <= i < j < |s| ==> s[i].mtime <= s[j].mtime
  }

  /** Unfolds AtTime over a sequence with a known first entry. */
  lemma AtTimeCons(x: Entry, s: seq<Entry>, t: real)
    ensures AtTime([x] + s, t) == (if x.mtime == t then [x] else []) + AtTime(s, t)
  {
    assert ([x] + s)[1..] == s;
  }

  /** In a sorted sequence no entry is older than the first. */
  lemma FirstIsOldest(s: seq<Entry>, x: Entry)
    requires SortedByMtime(s) && x in s
    ensures s[0].mtime <= x.mtime
  {
    var k :| 0 <= k < |s| && s[k] == x;
  }

  /**
   * Places `e` in front of the first entry that is not older than it, so that
   * `e` precedes every entry of `s` with the same modification time.
   */
  function Insert(e: Entry, s: seq<Entry>): (r: seq<Entry>)
    ensures multiset(r) == multiset(s) + multiset{e}
  {
    if s == [] || e.mtime <= s[0].mtime then [e] + s
    else
      assert s == [s[0]] + s[1..];
      [s[0]] + Insert(e, s[1..])
  }

  /** The inserted entry comes before every entry of `s` with the same time. */
  lemma {:induction false} InsertIsStable(e: Entry, s: seq<Entry>, t: real)
    ensures AtTime(Insert(e, s), t) == (if e.mtime == t then [e] else []) + AtTime(s, t)
  {
    if s == [] || e.mtime <= s[0].mtime {
      AtTimeCons(e, s, t);
    } else {
      var head, tail := s[0], s[1..];
      assert s == [head] + tail;
      var rest := Insert(e, tail);
      assert Insert(e, s) == [head] + rest;
      InsertIsStable(e, tail, t);
      AtTimeCons(head, rest, t);
      AtTimeCons(head, tail, t);
      if e.mtime == t {
        assert head.mtime != t;
        assert AtTime(Insert(e, s), t) == AtTime(rest, t) == [e] + AtTime(tail, t);
        assert AtTime(s, t) == AtTime(tail, t);
      } else {
        assert AtTime(rest, t) == AtTime(tail, t);
      }
    }
  }

  lemma {:induction false} InsertKeepsSorted(e: Entry, s: seq<Entry>)
    requires SortedByMtime(s)
    ensures SortedByMtime(Insert(e, s))
  {
    if s == [] || e.mtime <= s[0].mtime {
      forall x | x in s ensures e.mtime <= x.mtime { FirstIsOldest(s, x); }
    } else {
      var rest := Insert(e, s[1..]);
      InsertKeepsSorted(e, s[1..]);
      forall x | x in rest ensures s[0].mtime <= x.mtime {
        assert x in multiset(rest);
        if x != e {
          assert x in s[1..];
          FirstIsOldest(s, x);
        }
      }
      assert Insert(e, s) == [s[0]] + rest;
    }
  }

  /** Python's `sorted(…, key=mtime)`: ascending modification time, stable. */
  function SortByMtime(s: seq<Entry>): (r: seq<Entry>)
    ensures multiset(r) == multiset(s)
    ensures SortedByMtime(r)
    ensures forall t :: AtTime(r, t) == AtTime(s, t)
  {
    if s == [] then []
    else
      assert s == [s[0]] + s[1..];
      var sorted := SortByMtime(s[1..]);
      InsertKeepsSorted(s[0], sorted);
      assert forall t :: AtTime(Insert(s[0], sorted), t) == AtTime(s, t) by {
        forall t ensures AtTime(Insert(s[0], sorted), t) == AtTime(s, t) {
          InsertIsStable(s[0], sorted, t);
          AtTimeCons(s[0], s[1..], t);
        }
      }
      Insert(s[0], sorted)
  }

  /**
   * `get_file_list`: exactly the video entries, each as often as it was
   * enumerated, in ascending modification time, and entries with equal
   * modification times in enumeration order.
   */
  function GetFileList(s: seq<Entry>): (r: seq<Entry>)
    ensures forall e :: multiset(r)[e] == if IsVideo(e) then multiset(s)[e] else 0
    ensures SortedByMtime(r)
    ensures forall t :: AtTime(r, t) == AtTime(Videos(s), t)
  {
    VideosCount(s);
    SortByMtime(Videos(s))
  }

  lemma VideosCons(x: Entry, s: seq<Entry>)
    ensures Videos([x] + s) == (if IsVideo(x) then [x] else []) + Videos(s)
  {
    assert ([x] + s)[1..] == s;
  }

  /**
   * Filtering and then taking one modification time gives the same entries,
   * in the same order, as taking that time and then filtering.
   */
  lemma {:induction false} VideosAtTime(s: seq<Entry>, t: real)
    ensures AtTime(Videos(s), t) == Videos(AtTime(s, t))
  {
    if s != [] {
      var x, u := s[0], s[1..];
      assert s == [x] + u;
      var keep := if IsVideo(x) then [x] else [];
      var now := if x.mtime == t then [x] else [];
      calc {
        AtTime(Videos(s), t);
        { VideosCons(x, u); }
        AtTime(keep + Videos(u), t);
        { AtTimeAppend(keep, Videos(u), t); }
        AtTime(keep, t) + AtTime(Videos(u), t);
        { VideosAtTime(u, t); }
        AtTime(keep, t) + Videos(AtTime(u, t));
        { assert AtTime(keep, t) == Videos(now); }
        Videos(now) + Videos(AtTime(u, t));
        { VideosAppend(now, AtTime(u, t)); }
        Videos(now + AtTime(u, t));
        { AtTimeCons(x, u, t); }
        Videos(AtTime(s, t));
      }
    }
  }

  lemma {:induction false} AtTimeAppend(a: seq<Entry>, b: seq<Entry>, t: real)
    ensures AtTime(a + b, t) == AtTime(a, t) + AtTime(b, t)
  {
    if a != [] {
      assert a + b == [a[0]] + (a[1..] + b);
      AtTimeCons(a[0], a[1..] + b, t);
      AtTimeAppend(a[1..], b, t);
      assert a == [a[0]] + a[1..];
      AtTimeCons(a[0], a[1..], t);
    } else {
      assert a + b == b;
    }
  }

  lemma {:induction false} VideosAppend(a: seq<Entry>, b: seq<Entry>)
    ensures Videos(a + b) == Videos(a) + Videos(b)
  {
    if a != [] {
      assert a + b == [a[0]] + (a[1..] + b);
      VideosCons(a[0], a[1..] + b);
      VideosAppend(a[1..], b);
      assert a == [a[0]] + a[1..];
      VideosCons(a[0], a[1..]);
    } else {
      assert a + b == b;
    }
  }

  /** The comprehension keeps the entries it keeps in enumeration order. */
  lemma {:induction false} VideosIsSubsequence(s: seq<Entry>)
    ensures SubsequenceOf(Videos(s), s)
  {
    if s != [] {
      var x, u := s[0], s[1..];
      assert s == [x] + u;
      VideosCons(x, u);
      VideosIsSubsequence(u);
      if IsVideo(x) {
        assert Videos(s)[0] == x && Videos(s)[1..] == Videos(u);
      } else {
        assert Videos(s) == Videos(u) && s[1..] == u;
      }
    }
  }

  /**
   * Among the listed entries with one modification time: the video entries
   * the enumeration produced at that time, in enumeration order.
   */
  lemma ListedAtTime(s: seq<Entry>, t: real)
    ensures AtTime(GetFileList(s), t) == Videos(AtTime(s, t))
  {
    VideosAtTime(s, t);
  }

  /** An entry is listed exactly when it was enumerated and has a recognised suffix. */
  lemma ListedIffVideo(s: seq<Entry>, e: Entry)
    ensures e in GetFileList(s) <==> e in s && IsVideo(e)
  {
    var r := GetFileList(s);
    assert e in r <==> multiset(r)[e] > 0;
    assert e in s <==> multiset(s)[e] > 0;
  }

  lemma {:induction false} AtTimeNonEmpty(s: seq<Entry>)
    requires s != []
    ensures AtTime(s, s[0].mtime) != []
  {
  }

  /** Two sorted sequences with the same same-time subsequences start at the same time. */
  lemma SameEarliestTime(a: seq<Entry>, b: seq<Entry>)
    requires a != [] && b != []
    requires SortedByMtime(a) && SortedByMtime(b)
    requires forall t :: AtTime(a, t) == AtTime(b, t)
    ensures a[0].mtime == b[0].mtime
  {
    var ta, tb := a[0].mtime, b[0].mtime;
    AtTimeNonEmpty(a);
    AtTimeNonEmpty(b);
    assert AtTime(a, ta) == AtTime(b, ta);
    assert AtTime(a, tb) == AtTime(b, tb);
    var x := AtTime(b, ta)[0];
    InAtTime(b, ta, x);
    FirstIsOldest(b, x);
    var y := AtTime(a, tb)[0];
    InAtTime(a, tb, y);
    FirstIsOldest(a, y);
  }

  /** Sequences that start at the same time and agree per time agree after their first entries. */
  lemma TailsAgree(x: Entry, s: seq<Entry>, y: Entry, u: seq<Entry>, t: real)
    requires x.mtime == y.mtime
    requires AtTime([x] + s, t) == AtTime([y] + u, t)
    ensures AtTime(s, t) == AtTime(u, t)
    ensures t == x.mtime ==> x == y
  {
    AtTimeCons(x, s, t);
    AtTimeCons(y, u, t);
    if t == x.mtime {
      var both := AtTime([x] + s, t);
      assert both[0] == x && both[0] == y;
      assert both[1..] == AtTime(s, t) && both[1..] == AtTime(u, t);
    } else {
      assert AtTime([x] + s, t) == AtTime(s, t);
      assert AtTime([y] + u, t) == AtTime(u, t);
    }
  }

  /**
   * The contract of GetFileList pins its result down: two sequences that are
   * both sorted by modification time and agree on every same-time subsequence
   * are equal. So the result is the stable sort, not merely some sort.
   */
  lemma {:induction false} StableOrderIsUnique(a: seq<Entry>, b: seq<Entry>)
    requires SortedByMtime(a) && SortedByMtime(b)
    requires forall t :: AtTime(a, t) == AtTime(b, t)
    ensures a == b
  {
    if a == [] {
      if b != [] {
        AtTimeNonEmpty(b);
      }
    } else if b == [] {
      AtTimeNonEmpty(a);
    } else {
      SameEarliestTime(a, b);
      assert a == [a[0]] + a[1..] && b == [b[0]] + b[1..];
      TailsAgree(a[0], a[1..], b[0], b[1..], a[0].mtime);
      forall t ensures AtTime(a[1..], t) == AtTime(b[1..], t) {
        TailsAgree(a[0], a[1..], b[0], b[1..], t);
      }
      StableOrderIsUnique(a[1..], b[1..]);
    }
  }

  /** A name that differs from a recognised suffix only in case is left out. */
  lemma UpperCaseSuffixNotListed(dir: string, mtime: real)
    ensures !IsVideo(Entry(Path(dir, "clip.MP4"), mtime))
  {
    SuffixIsCaseSensitive();
  }
}
