/** Remote path strings: how both transfer variants cut a path at '/' and rebuild
    the absolute prefixes of a path, and how a server resolves a path string to a
    location in its tree. */
module Paths {

  /** A non-empty piece of a path that holds no '/'. */
  predicate IsSegment(s: string) {
    s != "" && '/' !in s
  }

  /** A segment that names an entry, as opposed to the "." and ".." pseudo-entries. */
  predicate IsName(s: string) {
    IsSegment(s) && s != "." && s != ".."
  }

  /** All pieces of `s` between '/' characters, empty pieces included: a string
      with n slashes has n + 1 pieces. */
  function Pieces(s: string): (r: seq<string>)
    ensures |r| > 0
    ensures forall i :: 0 <= i < |r| ==> '/' !in r[i]
  {
    if s == "" then [""]
    else
      var rest := Pieces(s[1..]);
      if s[0] == '/' then [""] + rest
      else [[s[0]] + rest[0]] + rest[1..]
  }

  /** Drops the empty pieces at the end, as `String.split` does. */
  function DropTrailingEmpty(xs: seq<string>): (r: seq<string>)
    ensures r <= xs
    ensures r == [] || r[|r| - 1] != ""
    ensures forall i :: |r| <= i < |xs| ==> xs[i] == ""
  {
    if xs == [] || xs[|xs| - 1] != "" then xs
    else DropTrailingEmpty(xs[..|xs| - 1])
  }

  /** `s.split("/")` in Java: the pieces, without the empty ones at the end,
      and the whole string when it holds no '/'. */
  function Split(s: string): seq<string> {
    if '/' !in s then [s] else DropTrailingEmpty(Pieces(s))
  }

  /** The pieces that are not empty, in order. */
  function NonEmpty(xs: seq<string>): (r: seq<string>)
    ensures forall i :: 0 <= i < |r| ==> r[i] in xs && r[i] != ""
  {
    if xs == [] then []
    else if xs[|xs| - 1] == "" then NonEmpty(xs[..|xs| - 1])
    else NonEmpty(xs[..|xs| - 1]) + [xs[|xs| - 1]]
  }

  /** The segments of a path: the non-empty pieces between slashes, in order. */
  function Segments(p: string): (r: seq<string>)
    ensures forall i :: 0 <= i < |r| ==> IsSegment(r[i])
  {
    NonEmpty(Pieces(p))
  }

  /** The absolute path built by appending "/" + segment for every segment in turn. */
  function Accumulate(segs: seq<string>): string {
    if segs == [] then ""
    else Accumulate(segs[..|segs| - 1]) + "/" + segs[|segs| - 1]
  }

  /** `Accumulate` of the first `n` segments, counted by index. */
  function AccumulatePrefix(segs: seq<string>, n: nat): string
    requires n <= |segs|
  {
    if n == 0 then "" else AccumulatePrefix(segs, n - 1) + "/" + segs[n - 1]
  }

  /** Every accumulated prefix past the first segment is absolute. */
  lemma {:induction false} AccumulatePrefixAbsolute(segs: seq<string>, n: nat)
    requires 0 < n <= |segs|
    ensures IsAbsolute(AccumulatePrefix(segs, n))
  {
    if n > 1 {
      AccumulatePrefixAbsolute(segs, n - 1);
    }
  }

  lemma {:induction false} AccumulatePrefixIs(segs: seq<string>, n: nat)
    requires n <= |segs|
    ensures AccumulatePrefix(segs, n) == Accumulate(segs[..n])
  {
    if n > 0 {
      AccumulatePrefixIs(segs, n - 1);
      assert segs[..n][..n - 1] == segs[..n - 1];
    }
  }

  predicate IsAbsolute(p: string) {
    |p| > 0 && p[0] == '/'
  }

  lemma {:induction false} NonEmptyAppend(xs: seq<string>, ys: seq<string>)
    ensures NonEmpty(xs + ys) == NonEmpty(xs) + NonEmpty(ys)
    decreases |ys|
  {
    if ys == [] {
      assert xs + ys == xs;
    } else {
      var zs := xs + ys;
      assert zs[..|zs| - 1] == xs + ys[..|ys| - 1];
      NonEmptyAppend(xs, ys[..|ys| - 1]);
    }
  }

  lemma {:induction false} NonEmptyOfTrailingEmpty(xs: seq<string>)
    ensures NonEmpty(DropTrailingEmpty(xs)) == NonEmpty(xs)
    decreases |xs|
  {
    if xs != [] && xs[|xs| - 1] == "" {
      NonEmptyOfTrailingEmpty(xs[..|xs| - 1]);
    }
  }

  /** Skipping the empty results of `split` leaves exactly the segments: the
      trailing pieces that `split` drops are all empty. */
  lemma SplitThenSkipEmpty(p: string)
    ensures NonEmpty(Split(p)) == Segments(p)
  {
    if '/' !in p {
      PiecesOfSegmentFree(p);
    } else {
      NonEmptyOfTrailingEmpty(Pieces(p));
    }
  }

  lemma {:induction false} PiecesOfSegmentFree(s: string)
    requires '/' !in s
    ensures Pieces(s) == [s]
    decreases |s|
  {
    if s != "" {
      PiecesOfSegmentFree(s[1..]);
      assert [s[0]] + s[1..] == s;
    }
  }

  /** Cutting at a slash splits the pieces between the two sides. */
  lemma {:induction false} PiecesAtSlash(a: string, b: string)
    ensures Pieces(a + "/" + b) == Pieces(a) + Pieces(b)
    decreases |a|
  {
    var s := a + "/" + b;
    if a == "" {
      assert s == "/" + b;
      assert s[1..] == b;
    } else {
      assert s[0] == a[0];
      assert s[1..] == a[1..] + "/" + b;
      PiecesAtSlash(a[1..], b);
    }
  }

  /** Appending "/" + segment to a path appends exactly that segment. */
  lemma SegmentsExtend(p: string, seg: string)
    requires IsSegment(seg)
    ensures Segments(p + "/" + seg) == Segments(p) + [seg]
  {
    PiecesAtSlash(p, seg);
    PiecesOfSegmentFree(seg);
    NonEmptyAppend(Pieces(p), [seg]);
    assert NonEmpty([seg]) == NonEmpty([]) + [seg];
  }

  /** The accumulated prefix is absolute and reads back as the segments it was built from. */
  lemma {:induction false} AccumulateRoundTrip(segs: seq<string>)
    requires forall i :: 0 <= i < |segs| ==> IsSegment(segs[i])
    ensures Segments(Accumulate(segs)) == segs
    ensures segs != [] ==> IsAbsolute(Accumulate(segs))
    decreases |segs|
  {
    if segs != [] {
      var init := segs[..|segs| - 1];
      AccumulateRoundTrip(init);
      SegmentsExtend(Accumulate(init), segs[|segs| - 1]);
      assert init + [segs[|segs| - 1]] == segs;
      if init != [] {
        assert Accumulate(segs)[0] == Accumulate(init)[0];
      }
    }
  }

  /** The non-empty pieces among the first j + 1 are those among the first j and
      the j-th when it is not empty. */
  lemma NonEmptyStep(xs: seq<string>, j: nat)
    requires j < |xs|
    ensures NonEmpty(xs[..j + 1]) == NonEmpty(xs[..j]) + (if xs[j] == "" then [] else [xs[j]])
  {
    var init := xs[..j + 1];
    assert init[..|init| - 1] == xs[..j];
  }

  /** The non-empty pieces of a prefix are a prefix of all non-empty pieces. */
  lemma {:induction false} NonEmptyOfPrefix(xs: seq<string>, j: nat)
    requires j < |xs|
    ensures NonEmpty(xs[..j + 1]) <= NonEmpty(xs)
    decreases |xs|
  {
    if j + 1 < |xs| {
      var init := xs[..|xs| - 1];
      NonEmptyOfPrefix(init, j);
      assert init[..j + 1] == xs[..j + 1];
      var last := if xs[|xs| - 1] == "" then [] else [xs[|xs| - 1]];
      assert NonEmpty(xs) == NonEmpty(init) + last;
      PrefixOfAppend(NonEmpty(init), last);
      PrefixTrans(NonEmpty(xs[..j + 1]), NonEmpty(init), NonEmpty(xs));
    } else {
      assert xs[..j + 1] == xs;
    }
  }

  lemma PrefixOfAppend<T>(a: seq<T>, b: seq<T>)
    ensures a <= a + b
  {
    assert (a + b)[..|a|] == a;
  }

  lemma PrefixTrans<T>(a: seq<T>, b: seq<T>, c: seq<T>)
    requires a <= b && b <= c
    ensures a <= c
  {
    assert c[..|b|][..|a|] == c[..|a|];
  }

  /** Reading the pieces of a path one at a time: an empty piece leaves the
      segments read so far alone, another is the next segment. */
  lemma NextPiece(folders: seq<string>, segs: seq<string>, j: nat, i: nat)
    requires j < |folders| && i <= |segs| && NonEmpty(folders) == segs
    requires NonEmpty(folders[..j]) == segs[..i]
    ensures folders[j] == "" ==> NonEmpty(folders[..j + 1]) == segs[..i]
    ensures folders[j] != "" ==>
              && i < |segs| && segs[i] == folders[j]
              && NonEmpty(folders[..j + 1]) == segs[..i + 1]
  {
    NonEmptyStep(folders, j);
    if folders[j] != "" {
      NonEmptyOfPrefix(folders, j);
      assert segs[..i + 1] == segs[..i] + [folders[j]];
      assert segs[..i + 1][..i] == segs[..i];
    }
  }

  /** Where a loop over the pieces of a path stands after reading j of them, i
      of them segments: `path` is the i-th accumulated prefix. */
  ghost predicate PiecesRead(folders: seq<string>, segs: seq<string>, j: nat, i: nat, path: string) {
    && j <= |folders| && i <= |segs| && NonEmpty(folders) == segs
    && (forall t :: 0 <= t < |segs| ==> IsSegment(segs[t]))
    && NonEmpty(folders[..j]) == segs[..i]
    && path == AccumulatePrefix(segs, i)
  }

  lemma PiecesReadStart(folders: seq<string>, segs: seq<string>)
    requires NonEmpty(folders) == segs && forall t :: 0 <= t < |segs| ==> IsSegment(segs[t])
    ensures PiecesRead(folders, segs, 0, 0, "")
  {
    assert folders[..0] == [] && segs[..0] == [];
  }

  /** An empty piece leaves the path built so far alone. */
  lemma PiecesReadSkip(folders: seq<string>, segs: seq<string>, j: nat, i: nat, path: string)
    requires PiecesRead(folders, segs, j, i, path) && j < |folders| && folders[j] == ""
    ensures PiecesRead(folders, segs, j + 1, i, path)
  {
    NextPiece(folders, segs, j, i);
  }

  /** Another piece is the next segment, and appending it gives the next prefix. */
  lemma PiecesReadNext(folders: seq<string>, segs: seq<string>, j: nat, i: nat, prev: string, path: string)
    requires PiecesRead(folders, segs, j, i, prev) && j < |folders| && folders[j] != ""
    requires path == prev + "/" + folders[j]
    ensures i < |segs| && segs[i] == folders[j]
    ensures PiecesRead(folders, segs, j + 1, i + 1, path)
  {
    NextPiece(folders, segs, j, i);
  }

  /** Once every piece is read, every segment is. */
  lemma PiecesReadAll(folders: seq<string>, segs: seq<string>, i: nat, path: string)
    requires PiecesRead(folders, segs, |folders|, i, path)
    ensures i == |segs|
  {
    assert folders[..|folders|] == folders;
  }
}
