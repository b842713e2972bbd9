/**
  Host paths and archive member names (`_posixify`, make_provisioner/app.py):
  a path relative to the payload directory is taken apart with the host's
  `os.path.split` and put back together with `posixpath.join`, so that
  archive names always use `/`. The host's path module is `posixpath` on a
  POSIX host and `ntpath` (which accepts both `\` and `/`) on Windows.
*/
module Paths {

  /** Which path module the building host uses. */
  datatype Host = Posix | Windows

  /** The separators `os.path` recognises on the host. */
  predicate IsSep(h: Host, c: char)
  {
    c == '/' || (h == Windows && c == '\\')
  }

  predicate NoSep(h: Host, s: string)
  {
    forall i :: 0 <= i < |s| ==> !IsSep(h, s[i])
  }

  predicate AllSeps(h: Host, s: string)
  {
    forall i :: 0 <= i < |s| ==> IsSep(h, s[i])
  }

  /**
    A path that does not start at a root, as `os.path.relpath` returns it.
    `_posixify` is only ever given such paths; on a rooted path its loop
    would not terminate.
  */
  predicate Relative(h: Host, p: string)
  {
    |p| == 0 || !IsSep(h, p[0])
  }

  // ---------------------------------------------------------------------------
  // os.path.split

  /** The index just past the last separator of `p`, or 0 when it has none. */
  function LastSepEnd(h: Host, p: string): (i: nat)
    ensures i <= |p|
    ensures i > 0 ==> IsSep(h, p[i - 1])
    ensures forall j :: i <= j < |p| ==> !IsSep(h, p[j])
  {
    if |p| == 0 then 0
    else if IsSep(h, p[|p| - 1]) then |p|
    else LastSepEnd(h, p[..|p| - 1])
  }

  /** `p.rstrip(separators)`. */
  function RStripSeps(h: Host, p: string): (r: string)
    ensures |r| <= |p| && r == p[..|r|]
    ensures |r| > 0 ==> !IsSep(h, r[|r| - 1])
    ensures forall j :: |r| <= j < |p| ==> IsSep(h, p[j])
  {
    if |p| > 0 && IsSep(h, p[|p| - 1]) then RStripSeps(h, p[..|p| - 1]) else p
  }

  /**
    `os.path.split(p)`: the tail is everything after the last separator;
    the head is everything before it, without trailing separators unless
    it consists of nothing else. (Drive letters are not modelled.)
  */
  function Split(h: Host, p: string): (string, string)
  {
    var i := LastSepEnd(h, p);
    var head := p[..i];
    var stripped := RStripSeps(h, head);
    (if |stripped| == 0 then head else stripped, p[i..])
  }

  /**
    Splitting a relative path: the tail holds no separator; an empty head
    means the tail is the whole path; otherwise the path is the head, a
    non-empty run of separators and the tail, and the head is a shorter
    relative path that does not end in a separator.
  */
  lemma SplitParts(h: Host, p: string)
    requires Relative(h, p)
    ensures var (head, tail) := Split(h, p);
            && NoSep(h, tail)
            && (|head| == 0 ==> tail == p)
            && (|head| > 0 ==>
                  && |head| + |tail| < |p|
                  && Relative(h, head)
                  && !IsSep(h, head[|head| - 1])
                  && p == head + p[|head|..|p| - |tail|] + tail
                  && AllSeps(h, p[|head|..|p| - |tail|]))
  {
    var i := LastSepEnd(h, p);
    var stripped := RStripSeps(h, p[..i]);
    var tail := p[i..];
    assert Split(h, p).1 == tail && |p| - |tail| == i;
    if i > 0 {
      assert !IsSep(h, p[..i][0]);
      assert |stripped| > 0;
      var head := stripped;
      assert Split(h, p).0 == head;
      assert head == p[..|head|] && |head| < i by {
        assert IsSep(h, p[..i][i - 1]);
      }
      assert p == head + p[|head|..i] + tail;
      assert AllSeps(h, p[|head|..i]) by {
        forall j | 0 <= j < i - |head|
          ensures IsSep(h, p[|head|..i][j])
        {
          assert p[|head|..i][j] == p[..i][|head| + j];
        }
      }
    } else {
      assert p[..i] == [] && tail == p;
    }
  }

  // ---------------------------------------------------------------------------
  // posixpath.join

  /** One step of `posixpath.join`: add `b` to `path`. */
  function JoinStep(path: string, b: string): string
  {
    if |b| > 0 && b[0] == '/' then b
    else if |path| == 0 || path[|path| - 1] == '/' then path + b
    else path + "/" + b
  }

  /** `posixpath.join(*segs)`, a left fold of `JoinStep`. */
  function PosixJoin(segs: seq<string>): string
    requires |segs| >= 1
  {
    if |segs| == 1 then segs[0]
    else JoinStep(PosixJoin(segs[..|segs| - 1]), segs[|segs| - 1])
  }

  function Reverse<T>(s: seq<T>): (r: seq<T>)
    ensures |r| == |s|
  {
    if |s| == 0 then [] else Reverse(s[1..]) + [s[0]]
  }

  // ---------------------------------------------------------------------------
  // _posixify

  /**
    The loop of `_posixify`: the tails of successive splits, last segment
    first (the list `rseg` before it is reversed).
  */
  function SegmentsReversed(h: Host, p: string): (rseg: seq<string>)
    requires Relative(h, p)
    ensures |rseg| >= 1
    decreases |p|
  {
    SplitParts(h, p);
    var (head, tail) := Split(h, p);
    [tail] + (if |head| == 0 then [] else SegmentsReversed(h, head))
  }

  /** `_posixify(p)`: the path's segments, in order, joined the POSIX way. */
  function Posixify(h: Host, p: string): string
    requires Relative(h, p)
  {
    PosixJoin(Reverse(SegmentsReversed(h, p)))
  }

  // ---------------------------------------------------------------------------
  // Reference: every maximal run of separators becomes a single '/'

  /**
    The path with each maximal run of host separators replaced by one `/`,
    read from the end: a plain last character is kept, a final run of
    separators becomes one `/`.
  */
  function Collapse(h: Host, p: string): string
    decreases |p|
  {
    if |p| == 0 then ""
    else if !IsSep(h, p[|p| - 1]) then Collapse(h, p[..|p| - 1]) + [p[|p| - 1]]
    else
      var q := RStripSeps(h, p);
      assert |q| < |p|;
      Collapse(h, q) + "/"
  }

  lemma {:induction false} CollapseNoSep(h: Host, s: string)
    requires NoSep(h, s)
    ensures Collapse(h, s) == s
    decreases |s|
  {
    if |s| > 0 {
      CollapseNoSep(h, s[..|s| - 1]);
      assert s[..|s| - 1] + [s[|s| - 1]] == s;
    }
  }

  /** Stripping trailing separators removes exactly a final run of them. */
  lemma {:induction false} RStripOverRun(h: Host, head: string, run: string)
    requires |head| == 0 || !IsSep(h, head[|head| - 1])
    requires AllSeps(h, run)
    ensures RStripSeps(h, head + run) == head
    decreases |run|
  {
    if |run| == 0 {
      assert head + run == head;
    } else {
      var p := head + run;
      assert p[..|p| - 1] == head + run[..|run| - 1];
      RStripOverRun(h, head, run[..|run| - 1]);
    }
  }

  /** Collapsing keeps a final character that is not a separator. */
  lemma CollapseLast(h: Host, x: string)
    requires |x| > 0 && !IsSep(h, x[|x| - 1])
    ensures |Collapse(h, x)| > 0 && Collapse(h, x)[|Collapse(h, x)| - 1] == x[|x| - 1]
  {
  }

  /** A path split into head, separators and a plain tail collapses to head, one `/`, tail. */
  lemma {:induction false} CollapseAtSplit(h: Host, head: string, run: string, tail: string)
    requires |head| > 0 && !IsSep(h, head[|head| - 1])
    requires |run| > 0 && AllSeps(h, run) && NoSep(h, tail)
    ensures Collapse(h, head + run + tail) == Collapse(h, head) + "/" + tail
    decreases |tail|
  {
    var p := head + run + tail;
    if |tail| == 0 {
      assert p == head + run && IsSep(h, p[|p| - 1]);
      RStripOverRun(h, head, run);
    } else {
      var shorter := tail[..|tail| - 1];
      assert p[..|p| - 1] == head + run + shorter;
      CollapseAtSplit(h, head, run, shorter);
      assert Collapse(h, head) + "/" + shorter + [tail[|tail| - 1]] == Collapse(h, head) + "/" + tail;
    }
  }

  lemma ReverseCons<T>(x: T, s: seq<T>)
    ensures Reverse([x] + s) == Reverse(s) + [x]
  {
    assert ([x] + s)[1..] == s;
  }

  /** One turn of the `_posixify` loop adds the tail behind what the head gives. */
  lemma PosixifyStep(h: Host, p: string, head: string, tail: string)
    requires Relative(h, p) && Split(h, p) == (head, tail)
    requires |head| > 0 && Relative(h, head)
    ensures Posixify(h, p) == JoinStep(Posixify(h, head), tail)
  {
    SplitParts(h, p);
    var segs := Reverse(SegmentsReversed(h, head));
    ReverseCons(tail, SegmentsReversed(h, head));
    assert Reverse(SegmentsReversed(h, p)) == segs + [tail];
    assert (segs + [tail])[..|segs|] == segs;
  }

  /**
    `_posixify` replaces each maximal run of host separators by a single
    `/`, keeping every other character in place.
  */
  lemma {:induction false} PosixifyCollapses(h: Host, p: string)
    requires Relative(h, p)
    ensures Posixify(h, p) == Collapse(h, p)
    decreases |p|
  {
    SplitParts(h, p);
    var (head, tail) := Split(h, p);
    if |head| == 0 {
      assert Reverse(SegmentsReversed(h, p)) == [p];
      CollapseNoSep(h, p);
    } else {
      PosixifyCollapses(h, head);
      PosixifyCollapsesStep(h, p, head, tail);
    }
  }

  lemma {:induction false} PosixifyCollapsesStep(h: Host, p: string, head: string, tail: string)
    requires Relative(h, p) && Split(h, p) == (head, tail)
    requires |head| > 0 && Relative(h, head)
    requires Posixify(h, head) == Collapse(h, head)
    ensures Posixify(h, p) == Collapse(h, p)
  {
    SplitParts(h, p);
    var run := p[|head|..|p| - |tail|];
    assert p == head + run + tail && AllSeps(h, run) && NoSep(h, tail) && !IsSep(h, head[|head| - 1]);
    assert Posixify(h, p) == Collapse(h, head) + "/" + tail by {
      PosixifyStep(h, p, head, tail);
      CollapseLast(h, head);
      assert |tail| == 0 || tail[0] != '/';
    }
    CollapseAtSplit(h, head, run, tail);
  }

  // ---------------------------------------------------------------------------
  // Consequences

  /** Every separator in a collapsed path is a `/`. */
  lemma {:induction false} CollapseSlashesOnly(h: Host, p: string)
    ensures forall i :: 0 <= i < |Collapse(h, p)| ==> Collapse(h, p)[i] == '/' || !IsSep(h, Collapse(h, p)[i])
    decreases |p|
  {
    if |p| > 0 {
      var q := if IsSep(h, p[|p| - 1]) then RStripSeps(h, p) else p[..|p| - 1];
      CollapseSlashesOnly(h, q);
      assert Collapse(h, p)[..|Collapse(h, q)|] == Collapse(h, q);
    }
  }

  /** An archive name made by `_posixify` holds no host separator other than `/`. */
  lemma PosixifySlashesOnly(h: Host, p: string)
    requires Relative(h, p)
    ensures forall i :: 0 <= i < |Posixify(h, p)| ==> Posixify(h, p)[i] == '/' || !IsSep(h, Posixify(h, p)[i])
  {
    PosixifyCollapses(h, p);
    CollapseSlashesOnly(h, p);
  }

  /** No two separators stand next to each other. */
  predicate SingleSeps(h: Host, p: string)
  {
    forall i :: 0 <= i < |p| - 1 ==> !(IsSep(h, p[i]) && IsSep(h, p[i + 1]))
  }

  /** The path with each separator written as `/`. */
  function SlashSeparated(h: Host, p: string): (r: string)
    ensures |r| == |p|
    ensures forall i :: 0 <= i < |p| ==> r[i] == if IsSep(h, p[i]) then '/' else p[i]
  {
    if |p| == 0 then "" else [if IsSep(h, p[0]) then '/' else p[0]] + SlashSeparated(h, p[1..])
  }

  lemma {:induction false} CollapseSingleSeps(h: Host, p: string)
    requires SingleSeps(h, p)
    ensures Collapse(h, p) == SlashSeparated(h, p)
    decreases |p|
  {
    if |p| > 0 {
      var pre, last := p[..|p| - 1], p[|p| - 1];
      SingleSepsPrefix(h, p);
      CollapseSingleSeps(h, pre);
      CollapseSnoc(h, pre, last);
      SlashSeparatedSnoc(h, pre, last);
      assert p == pre + [last];
    }
  }

  lemma SingleSepsPrefix(h: Host, p: string)
    requires |p| > 0 && SingleSeps(h, p)
    ensures SingleSeps(h, p[..|p| - 1])
    ensures |p| > 1 && IsSep(h, p[|p| - 1]) ==> !IsSep(h, p[..|p| - 1][|p| - 2])
  {
    var pre := p[..|p| - 1];
    forall i | 0 <= i < |pre| - 1
      ensures !(IsSep(h, pre[i]) && IsSep(h, pre[i + 1]))
    {
      assert pre[i] == p[i] && pre[i + 1] == p[i + 1];
    }
  }

  /** Adding a character that does not extend a run of separators adds its collapsed form. */
  lemma CollapseSnoc(h: Host, pre: string, last: char)
    requires IsSep(h, last) ==> |pre| == 0 || !IsSep(h, pre[|pre| - 1])
    ensures Collapse(h, pre + [last]) == Collapse(h, pre) + [if IsSep(h, last) then '/' else last]
  {
    var p := pre + [last];
    assert p[..|p| - 1] == pre && p[|p| - 1] == last;
    if IsSep(h, last) {
      RStripOverRun(h, pre, [last]);
    }
  }

  /** Adding a character at the end adds its slash-separated form. */
  lemma SlashSeparatedSnoc(h: Host, pre: string, last: char)
    ensures SlashSeparated(h, pre + [last]) == SlashSeparated(h, pre) + [if IsSep(h, last) then '/' else last]
  {
    var p := pre + [last];
    var r := SlashSeparated(h, pre) + [if IsSep(h, last) then '/' else last];
    assert forall i :: 0 <= i < |p| ==> SlashSeparated(h, p)[i] == r[i];
  }

  /**
    For the paths `os.path.relpath` produces (no doubled separators),
    `_posixify` gives the same segments in the same order, joined by `/`.
  */
  lemma PosixifySegments(h: Host, p: string)
    requires Relative(h, p) && SingleSeps(h, p)
    ensures Posixify(h, p) == SlashSeparated(h, p)
  {
    PosixifyCollapses(h, p);
    CollapseSingleSeps(h, p);
  }

  /** Collapsing keeps a first character that is not a separator. */
  lemma {:induction false} CollapseFirst(h: Host, p: string)
    requires |p| > 0 && !IsSep(h, p[0])
    ensures |Collapse(h, p)| > 0 && Collapse(h, p)[0] == p[0]
    decreases |p|
  {
    if |p| > 1 {
      if !IsSep(h, p[|p| - 1]) {
        CollapseFirst(h, p[..|p| - 1]);
      } else {
        var q := RStripSeps(h, p);
        assert |q| > 0;
        assert q[0] == p[0];
        CollapseFirst(h, q);
      }
    }
  }

  /**
    A relative path posixifies to a relative archive name: the empty path
    stays empty, and any other keeps its first character, which is no
    separator.
  */
  lemma PosixifyRelative(h: Host, p: string)
    requires Relative(h, p)
    ensures |p| == 0 ==> Posixify(h, p) == ""
    ensures |p| > 0 ==> |Posixify(h, p)| > 0 && Posixify(h, p)[0] == p[0] && Posixify(h, p)[0] != '/'
  {
    PosixifyCollapses(h, p);
    if |p| > 0 {
      CollapseFirst(h, p);
    }
  }

  /**
    `posixpath.join(dir, name)` of a relative directory and a plain,
    non-empty name is a non-empty name that does not start at the root.
  */
  lemma JoinRelative(dir: string, name: string)
    requires |dir| == 0 || dir[0] != '/'
    requires |name| > 0 && name[0] != '/'
    ensures |JoinStep(dir, name)| > 0 && JoinStep(dir, name)[0] != '/'
  {
  }

  /** The payload root itself, `.`, keeps its name. */
  lemma PosixifyDot(h: Host)
    ensures Posixify(h, ".") == "."
  {
    PosixifySegments(h, ".");
  }

  // ---------------------------------------------------------------------------
  // Parent segments

  /** A `..` segment of `s` starts at `i`: two dots between host separators or the ends. */
  predicate ParentAt(h: Host, s: string, i: nat)
    requires i + 2 <= |s|
  {
    && s[i] == '.' && s[i + 1] == '.'
    && (i == 0 || IsSep(h, s[i - 1]))
    && (i + 2 == |s| || IsSep(h, s[i + 2]))
  }

  /** No segment of `s`, split at the host's separators, is `..`. */
  predicate NoParentSegment(h: Host, s: string)
  {
    forall i: nat :: i + 2 <= |s| ==> !ParentAt(h, s, i)
  }

  /** A single segment other than `..` has no parent segment. */
  lemma SegmentNoParent(h: Host, seg: string)
    requires NoSep(h, seg) && seg != ".."
    ensures NoParentSegment(h, seg)
  {
    forall i: nat | i + 2 <= |seg|
      ensures !ParentAt(h, seg, i)
    {
      if i == 0 && |seg| == 2 {
        assert seg == [seg[0], seg[1]];
      }
    }
  }

  /**
    `posixpath.join` of a path without `..` segments and a segment that is
    neither `..` nor holds a `/` has no `..` segment.
  */
  lemma JoinStepNoParent(path: string, b: string)
    requires NoParentSegment(Posix, path)
    requires NoSep(Posix, b) && b != ".."
    ensures NoParentSegment(Posix, JoinStep(path, b))
  {
    var r := JoinStep(path, b);
    var start := |r| - |b|;
    assert r == r[..start] + b;
    forall i: nat | i + 2 <= |r|
      ensures !ParentAt(Posix, r, i)
    {
      if i + 2 < |path| {
        assert r[..|path|] == path;
        assert ParentAt(Posix, r, i) ==> ParentAt(Posix, path, i);
      } else if i + 2 == |path| {
        assert r[..|path|] == path;
        assert ParentAt(Posix, r, i) ==> ParentAt(Posix, path, i);
      } else if i < start {
        assert start == |path| || (start == |path| + 1 && r[|path|] == '/');
        assert !ParentAt(Posix, r, i);
      } else if i == start {
        assert |b| >= 2 && b[..2] == r[i..i + 2];
        assert |b| == 2 ==> b == b[..2];
      } else {
        assert !IsSep(Posix, r[i - 1]) by {
          assert r[i - 1] == b[i - 1 - start];
        }
      }
    }
  }

  /** Every segment is free of separators and other than `..`. */
  predicate PlainSegments(h: Host, segs: seq<string>)
  {
    forall k :: 0 <= k < |segs| ==> NoSep(h, segs[k]) && segs[k] != ".."
  }

  /** The segments of a relative path without `..` segments are plain. */
  lemma {:induction false} SegmentsReversedPlain(h: Host, p: string)
    requires Relative(h, p) && NoParentSegment(h, p)
    ensures PlainSegments(h, SegmentsReversed(h, p))
    decreases |p|
  {
    SplitParts(h, p);
    var (head, tail) := Split(h, p);
    var i := LastSepEnd(h, p);
    assert tail == p[i..] && |p| - |tail| == i;
    assert tail == ".." ==> ParentAt(h, p, i);
    if |head| > 0 {
      assert p[..|head|] == head;
      assert IsSep(h, p[|head|]);
      assert NoParentSegment(h, head) by {
        forall j: nat | j + 2 <= |head|
          ensures !ParentAt(h, head, j)
        {
          assert ParentAt(h, head, j) ==> ParentAt(h, p, j);
        }
      }
      SegmentsReversedPlain(h, head);
    }
  }

  /** Reversing keeps every element. */
  lemma {:induction false} ReversePlain(h: Host, segs: seq<string>)
    requires PlainSegments(h, segs)
    ensures PlainSegments(h, Reverse(segs))
  {
    if |segs| > 0 {
      ReversePlain(h, segs[1..]);
      assert Reverse(segs) == Reverse(segs[1..]) + [segs[0]];
    }
  }

  /** Joining plain segments gives a path without `..` segments. */
  lemma {:induction false} PosixJoinNoParent(segs: seq<string>)
    requires |segs| >= 1 && PlainSegments(Posix, segs)
    ensures NoParentSegment(Posix, PosixJoin(segs))
  {
    if |segs| == 1 {
      SegmentNoParent(Posix, segs[0]);
    } else {
      PosixJoinNoParent(segs[..|segs| - 1]);
      JoinStepNoParent(PosixJoin(segs[..|segs| - 1]), segs[|segs| - 1]);
    }
  }

  /** Any separator of the host is `/` on POSIX too, so plain host segments are plain POSIX segments. */
  lemma PlainOnPosix(h: Host, segs: seq<string>)
    requires PlainSegments(h, segs)
    ensures PlainSegments(Posix, segs)
  {
  }

  /** `_posixify` of a path without `..` segments has none either. */
  lemma PosixifyNoParent(h: Host, p: string)
    requires Relative(h, p) && NoParentSegment(h, p)
    ensures NoParentSegment(Posix, Posixify(h, p))
  {
    SegmentsReversedPlain(h, p);
    ReversePlain(h, SegmentsReversed(h, p));
    PlainOnPosix(h, Reverse(SegmentsReversed(h, p)));
    PosixJoinNoParent(Reverse(SegmentsReversed(h, p)));
  }
}
