/** The remote side as both protocols see it: a tree of directories and files,
    addressed by keys (the sequence of names from the root), a working directory,
    and the way a server resolves a path string to a key. */
module Remote {
  import opened Paths

  /** A location in the tree: the names from the root down; the root is []. */
  type Key = seq<string>

  datatype Kind = Dir | File

  /** What a listing reports about one entry: its name and whether it is a directory. */
  datatype Entry = Entry(name: string, isDir: bool)

  /** The requests a client sends that the model records: those that change the
      remote state (the working directory or the tree), and directory listings
      where a failure can depend on them. */
  datatype Request =
    | Enter(path: string)
    | MakeDir(path: string)
    | List(path: string)
    | RemoveFile(path: string)
    | RemoveDir(path: string)

  type Tree = map<Key, Kind>

  predicate ProperKey(k: Key) {
    forall i :: 0 <= i < |k| ==> IsName(k[i])
  }

  predicate IsDir(fs: Tree, k: Key) {
    k in fs && fs[k] == Dir
  }

  predicate IsFile(fs: Tree, k: Key) {
    k in fs && fs[k] == File
  }

  /** The root is a directory, and every other entry sits, under a proper name,
      in a directory that is itself in the tree. */
  ghost predicate WellFormed(fs: Tree) {
    && IsDir(fs, [])
    && forall k {:trigger Present(fs, k)} :: Present(fs, k) && k != [] ==> IsDir(fs, k[..|k| - 1]) && IsName(k[|k| - 1])
  }

  /** Membership under a name of its own, so that `WellFormed` speaks of an
      entry's parent only where a proof names the entry with it (and not of the
      parent's parent, and so on). */
  predicate Present(fs: Tree, k: Key) {
    k in fs
  }

  /** Everything strictly below `d`. */
  function Descendants(fs: Tree, d: Key): set<Key> {
    set k | k in fs && d < k
  }

  /** Where one path segment leads from `at`: "." stays, ".." goes up (the root
      is its own parent), a name goes down. */
  function Step(at: Key, seg: string): Key {
    if seg == "." then at
    else if seg == ".." then (if at == [] then [] else at[..|at| - 1])
    else at + [seg]
  }

  function Walk(at: Key, segs: seq<string>): (k: Key)
    requires ProperKey(at)
    requires forall i :: 0 <= i < |segs| ==> IsSegment(segs[i])
    ensures ProperKey(k)
    decreases |segs|
  {
    if segs == [] then at
    else Step(Walk(at, segs[..|segs| - 1]), segs[|segs| - 1])
  }

  /** The key a server gives a path string: absolute paths start at the root,
      relative ones at the working directory; empty pieces are ignored. */
  function Resolve(cwd: Key, p: string): (k: Key)
    requires ProperKey(cwd)
    ensures ProperKey(k)
  {
    Walk(if IsAbsolute(p) then [] else cwd, Segments(p))
  }

  /** A name appended to a non-empty path leads one level below where the path leads. */
  lemma ResolveChild(cwd: Key, p: string, name: string)
    requires ProperKey(cwd) && p != "" && IsName(name)
    ensures Resolve(cwd, p + "/" + name) == Resolve(cwd, p) + [name]
  {
    var q := p + "/" + name;
    SegmentsExtend(p, name);
    assert q[0] == p[0];
    var segs := Segments(q);
    assert segs[..|segs| - 1] == Segments(p);
  }

  /** An accumulated prefix leads to the same key whatever the working directory. */
  lemma ResolveAccumulated(cwd: Key, segs: seq<string>)
    requires ProperKey(cwd) && segs != []
    requires forall i :: 0 <= i < |segs| ==> IsSegment(segs[i])
    ensures Resolve(cwd, Accumulate(segs)) == Walk([], segs)
  {
    AccumulateRoundTrip(segs);
  }

  /** The names of a listing, in listing order. */
  function Names(es: seq<Entry>): (r: seq<string>)
    ensures |r| == |es|
    ensures forall i :: 0 <= i < |es| ==> r[i] == es[i].name
  {
    seq(|es|, i requires 0 <= i < |es| => es[i].name)
  }

  /** The names of a listing, split where the listing is split. */
  lemma NamesSplit(es: seq<Entry>, n: nat)
    requires n <= |es|
    ensures Names(es)[..n] == Names(es[..n]) && Names(es)[n..] == Names(es[n..])
  {
  }

  /** `names` holds each name directly inside `d` exactly once and nothing else;
      every name found anywhere below `d` is among them. */
  predicate ListsNames(fs: Tree, d: Key, names: seq<string>) {
    && (forall i :: 0 <= i < |names| ==> IsName(names[i]) && d + [names[i]] in fs)
    && (forall i, j :: 0 <= i < j < |names| ==> names[i] != names[j])
    && (forall k :: k in fs && d < k ==> k[|d|] in names)
  }

  /** `es` reports the entries directly inside `d`, as `ListsNames` says, each with its kind. */
  predicate ListsChildren(fs: Tree, d: Key, es: seq<Entry>) {
    && ListsNames(fs, d, Names(es))
    && (forall i :: 0 <= i < |es| ==> d + [es[i].name] in fs && es[i].isDir == (fs[d + [es[i].name]] == Dir))
  }

  /** The "." and ".." entries a server may put in front of a directory listing. */
  const DotEntries: seq<Entry> := [Entry(".", true), Entry("..", true)]

  predicate IsDotName(name: string) {
    name == "." || name == ".."
  }

  /** Every ancestor of an entry is in the tree, and is a directory. */
  lemma {:induction false} AncestorInTree(fs: Tree, k: Key, n: nat)
    requires WellFormed(fs) && k in fs && n <= |k|
    ensures k[..n] in fs
    ensures n < |k| ==> IsDir(fs, k[..n])
    decreases |k| - n
  {
    if n == |k| {
      assert k[..n] == k;
    } else {
      var parent := k[..|k| - 1];
      assert Present(fs, k);
      AncestorInTree(fs, parent, n);
      assert parent[..n] == k[..n];
    }
  }

  lemma ChildKey(d: Key, k: Key)
    requires d < k && |k| == |d| + 1
    ensures k == d + [k[|d|]]
  {
    assert k[..|d|] == d;
  }

  /** Lists the entries directly inside the directory `d`, in whatever order the
      server chooses. */
  method ListChildren(fs: Tree, d: Key) returns (es: seq<Entry>)
    requires WellFormed(fs) && IsDir(fs, d)
    ensures ListsChildren(fs, d, es)
  {
    var children := set k | k in fs && d < k && |k| == |d| + 1;
    var pending := children;
    ghost var listed: seq<Key> := [];
    es := [];
    while pending != {}
      invariant pending <= children
      invariant |listed| == |es|
      invariant forall i :: 0 <= i < |listed| ==> listed[i] in children && listed[i] !in pending
      invariant forall k :: k in children ==> k in pending || k in listed
      invariant forall i :: 0 <= i < |es| ==>
                  listed[i] == d + [es[i].name] && es[i].isDir == (fs[listed[i]] == Dir)
      invariant forall i, j :: 0 <= i < j < |es| ==> es[i].name != es[j].name
      decreases pending
    {
      var k :| k in pending;
      ChildKey(d, k);
      forall i | 0 <= i < |es| ensures es[i].name != k[|d|] {
        assert listed[i] != k;
      }
      es := es + [Entry(k[|d|], fs[k] == Dir)];
      listed := listed + [k];
      pending := pending - {k};
    }
    ListedChildren(fs, d, es, listed);
  }

  lemma ListedChildren(fs: Tree, d: Key, es: seq<Entry>, listed: seq<Key>)
    requires WellFormed(fs)
    requires |listed| == |es|
    requires forall i :: 0 <= i < |es| ==>
               listed[i] == d + [es[i].name] && listed[i] in fs && es[i].isDir == (fs[listed[i]] == Dir)
    requires forall k :: k in fs && d < k && |k| == |d| + 1 ==> k in listed
    requires forall i, j :: 0 <= i < j < |es| ==> es[i].name != es[j].name
    ensures ListsChildren(fs, d, es)
  {
    var names := Names(es);
    forall i | 0 <= i < |names|
      ensures IsName(names[i]) && d + [names[i]] in fs
    {
      ListedName(fs, d, es[i].name);
    }
    forall i, j | 0 <= i < j < |names| ensures names[i] != names[j] {
      assert es[i].name != es[j].name;
    }
    forall k | k in fs && d < k ensures k[|d|] in names {
      AncestorInTree(fs, k, |d| + 1);
      ListedPrefix(d, k, es, listed);
    }
  }

  /** The first name below `d` on the way to `k` is listed once the child it names is. */
  lemma ListedPrefix(d: Key, k: Key, es: seq<Entry>, listed: seq<Key>)
    requires d < k && |listed| == |es|
    requires forall i :: 0 <= i < |es| ==> listed[i] == d + [es[i].name]
    requires k[..|d| + 1] in listed
    ensures k[|d|] in Names(es)
  {
    var c := k[..|d| + 1];
    var i :| 0 <= i < |listed| && listed[i] == c;
    assert c[|d|] == k[|d|];
    assert Names(es)[i] == k[|d|];
  }

  lemma ListedName(fs: Tree, d: Key, name: string)
    requires WellFormed(fs) && d + [name] in fs
    ensures IsName(name)
  {
    var k := d + [name];
    assert Present(fs, k) && k[|k| - 1] == name;
  }

  /** Adding a directory under an existing directory keeps the tree well formed. */
  lemma AddDirKeepsWellFormed(fs: Tree, k: Key)
    requires WellFormed(fs) && k != [] && IsDir(fs, k[..|k| - 1]) && IsName(k[|k| - 1])
    ensures WellFormed(fs[k := Dir])
  {
    var now := fs[k := Dir];
    forall j | Present(now, j) && j != []
      ensures IsDir(now, j[..|j| - 1]) && IsName(j[|j| - 1])
    {
      if j != k {
        assert Present(fs, j);
      }
    }
  }

  /** Removing an entry with nothing below it keeps the tree well formed. */
  lemma RemoveLeafKeepsWellFormed(fs: Tree, k: Key)
    requires WellFormed(fs) && k != [] && Descendants(fs, k) == {}
    ensures WellFormed(fs - {k})
  {
    var now := fs - {k};
    forall j | Present(now, j) && j != []
      ensures IsDir(now, j[..|j| - 1]) && IsName(j[|j| - 1])
    {
      assert Present(fs, j);
      assert j !in Descendants(fs, k);
    }
  }

  /** `d` and everything below it. */
  function Subtree(fs: Tree, d: Key): (s: set<Key>)
    ensures forall k :: k in s <==> k in fs && d <= k
  {
    set k | k in fs && d <= k
  }

  /** `now` is `was` with some entries removed: nothing added, no kind changed. */
  predicate Shrunk(now: Tree, was: Tree) {
    forall k :: k in now ==> k in was && now[k] == was[k]
  }

  /** Nothing outside `d` was removed. */
  predicate KeptOutside(now: Tree, was: Tree, d: Key) {
    forall k :: k in was && !(d <= k) ==> k in now
  }

  /** Nothing at or below `d` is left. */
  predicate Cleared(fs: Tree, d: Key) {
    forall k :: k in fs ==> !(d <= k)
  }


  /** The subtree of a key strictly below `d` is smaller than the subtree of `d`
      as long as `d` itself is still there. */
  lemma SubtreeShrinks(was: Tree, now: Tree, d: Key, c: Key)
    requires Shrunk(now, was) && d in now && d < c
    ensures |Subtree(now, c)| < |Subtree(was, d)|
  {
    var small, big := Subtree(now, c), Subtree(was, d);
    forall k | k in small ensures k in big - {d} {
      PrefixTrans(d, c, k);
    }
    SubsetCard(small, big - {d});
  }

  lemma {:induction false} SubsetCard(a: set<Key>, b: set<Key>)
    requires a <= b
    ensures |a| <= |b|
    decreases |a|
  {
    if a != {} {
      var x :| x in a;
      SubsetCard(a - {x}, b - {x});
    }
  }

  lemma FileIsLeaf(fs: Tree, k: Key)
    requires WellFormed(fs) && IsFile(fs, k)
    ensures k != [] && Descendants(fs, k) == {}
  {
    forall j | j in fs && k < j ensures false {
      assert j[..|k|] == k;
      AncestorInTree(fs, j, |k|);
    }
  }

  /** Removing a file removes all there is at or below it. */
  lemma RemovedFileCleared(fs: Tree, k: Key)
    requires WellFormed(fs) && IsFile(fs, k)
    ensures Cleared(fs - {k}, k)
  {
    FileIsLeaf(fs, k);
    LeafCleared(fs, k);
  }

  lemma LeafCleared(fs: Tree, k: Key)
    requires Descendants(fs, k) == {}
    ensures Cleared(fs - {k}, k)
  {
    forall j | j in fs - {k} ensures !(k <= j) {
      assert j !in Descendants(fs, k);
      assert j != k;
    }
  }

  /** A key below `d` whose next name is `name` is below the child `d + [name]`. */
  lemma ChildPrefix(d: Key, k: Key, name: string)
    requires d < k && k[|d|] == name
    ensures d + [name] <= k
  {
    assert k[..|d| + 1] == k[..|d|] + [k[|d|]];
  }

  /** The state of a recursive delete of `d` part way through its listing: only
      entries below the children named in `gone` were removed, and those
      children's subtrees are gone entirely. */
  predicate DeletedThrough(was: Tree, now: Tree, d: Key, gone: set<string>) {
    && Shrunk(now, was)
    && (forall k :: k in was && !(d < k && k[|d|] in gone) ==> k in now)
    && (forall k :: k in now && d < k ==> k[|d|] !in gone)
  }

  /** Clearing one more child keeps `DeletedThrough`, with its name added. */
  lemma {:induction false} DeletedStep(was: Tree, before: Tree, after: Tree, d: Key, gone: set<string>, name: string)
    requires DeletedThrough(was, before, d, gone)
    requires Shrunk(after, before) && KeptOutside(after, before, d + [name]) && Cleared(after, d + [name])
    ensures DeletedThrough(was, after, d, gone + {name})
  {
    var c := d + [name];
    forall k | k in was && !(d < k && k[|d|] in gone + {name}) ensures k in after {
      assert k in before;
    }
    forall k | k in after && d < k ensures k[|d|] !in gone + {name} {
      if k[|d|] == name {
        ChildPrefix(d, k, name);
      }
    }
  }

  /** Once every name below `d` in `was` is in `gone`, nothing below `d` is left,
      and `d` itself still is. */
  lemma DeletedAll(was: Tree, now: Tree, d: Key, gone: set<string>)
    requires DeletedThrough(was, now, d, gone) && d in was
    requires forall k :: k in was && d < k ==> k[|d|] in gone
    ensures Descendants(now, d) == {} && d in now && now[d] == was[d]
  {
  }

  /** `d` is a directory other than the root, and no path at or below it is in `refused`. */
  predicate Healthy(fs: Tree, refused: set<Key>, d: Key) {
    && d != [] && IsDir(fs, d)
    && forall k :: k in refused ==> !(d <= k)
  }

  /** A listing or removal request naming `dir` or a path below it. */
  predicate RequestUnder(q: Request, dir: string) {
    && (q.List? || q.RemoveFile? || q.RemoveDir?)
    && (q.path == dir || dir + "/" <= q.path)
  }

  predicate RequestsUnder(qs: seq<Request>, dir: string) {
    forall n :: 0 <= n < |qs| ==> RequestUnder(qs[n], dir)
  }

  /** Requests below a child path are requests below its parent. */
  lemma RequestsUnderChild(qs: seq<Request>, dir: string, name: string)
    requires RequestsUnder(qs, dir + "/" + name)
    ensures RequestsUnder(qs, dir)
  {
    var child := dir + "/" + name;
    assert dir + "/" <= child;
    forall n | 0 <= n < |qs| ensures RequestUnder(qs[n], dir) {
      if qs[n].path != child {
        assert child <= child + "/";
        PrefixTrans(dir + "/", child + "/", qs[n].path);
      }
    }
  }

  /** The key the n-th accumulated prefix names. */
  function Reached(segs: seq<string>, n: nat): Key
    requires n <= |segs| && forall t :: 0 <= t < |segs| ==> IsSegment(segs[t])
  {
    Walk([], segs[..n])
  }

  /** The n-th accumulated prefix names the key `Reached` gives, wherever the
      walk stands. */
  lemma ResolvePrefix(cwd: Key, segs: seq<string>, n: nat)
    requires ProperKey(cwd) && 0 < n <= |segs| && forall t :: 0 <= t < |segs| ==> IsSegment(segs[t])
    ensures Resolve(cwd, AccumulatePrefix(segs, n)) == Reached(segs, n)
  {
    AccumulatePrefixIs(segs, n);
    ResolveAccumulated(cwd, segs[..n]);
  }

  /** One accumulated prefix of a path: the string a transfer sends and the key
      the server gives it. */
  datatype Prefix = Prefix(path: string, key: Key)

  /** The accumulated prefixes of `segs`, the n-th spelt by its first n + 1
      segments. */
  function Prefixes(segs: seq<string>): (r: seq<Prefix>)
    requires forall t :: 0 <= t < |segs| ==> IsSegment(segs[t])
    ensures |r| == |segs|
  {
    seq(|segs|, n requires 0 <= n < |segs| => Prefix(AccumulatePrefix(segs, n + 1), Reached(segs, n + 1)))
  }

  /** Each prefix extends the one before it by its segment, is absolute, and
      names its key from any working directory. */
  lemma PrefixAt(cwd: Key, segs: seq<string>, n: nat)
    requires ProperKey(cwd) && n < |segs| && forall t :: 0 <= t < |segs| ==> IsSegment(segs[t])
    ensures var p := Prefixes(segs)[n];
            && p.path == AccumulatePrefix(segs, n) + "/" + segs[n]
            && IsAbsolute(p.path)
            && Resolve(cwd, p.path) == p.key
  {
    AccumulatePrefixAbsolute(segs, n + 1);
    ResolvePrefix(cwd, segs, n + 1);
  }

  /** The last prefix of an absolute path names the key of the path itself. */
  lemma LastPrefix(cwd: Key, p: string)
    requires ProperKey(cwd) && IsAbsolute(p) && Segments(p) != []
    ensures var segs := Segments(p);
            && Prefixes(segs)[|segs| - 1].key == Resolve(cwd, p)
            && forall n :: 0 <= n < |segs| ==> ProperKey(Prefixes(segs)[n].key)
  {
    var segs := Segments(p);
    assert segs[..|segs|] == segs;
  }
}
