/** The walk both transfers use to delete a directory, depth first: list it,
    remove every entry other than "." and "..", then remove the directory. This
    module holds what the two share: what a listing says, and where the walk
    stands part way through one. */
module Deletion {
  import opened Paths
  import opened Remote

  /** The entries a server may put in front of a directory listing: "." and
      "..", or none. */
  predicate DotsShown(dots: seq<Entry>) {
    dots == DotEntries || dots == []
  }

  /** What a listing of the key `k` answers when the server lists it: a file
      lists as itself, a directory as `dots`, then each of its entries once. */
  predicate ListingOf(fs: Tree, k: Key, dots: seq<Entry>, files: seq<Entry>) {
    && k in fs
    && (fs[k] == File ==> k != [] && files == [Entry(k[|k| - 1], false)])
    && (fs[k] == Dir ==> |files| >= |dots| && files[..|dots|] == dots && ListsChildren(fs, k, files[|dots|..]))
  }

  /** The entry named `name` in a listing is a directory exactly when it says so,
      and the listing holds no other entry named `name`. */
  lemma ListingEntry(fs: Tree, k: Key, dots: seq<Entry>, files: seq<Entry>, t: nat)
    requires ProperKey(k) && DotsShown(dots) && ListingOf(fs, k, dots, files)
    requires t < |files| && !IsDotName(files[t].name)
    ensures IsName(files[t].name)
    ensures fs[k] == Dir ==>
              && k + [files[t].name] in fs
              && files[t].isDir == (fs[k + [files[t].name]] == Dir)
              && forall u :: 0 <= u < |files| && u != t ==> files[u].name != files[t].name
  {
    if fs[k] == File {
      assert files[t] == Entry(k[|k| - 1], false);
    } else {
      DirListingEntry(fs, k, dots, files, t);
    }
  }

  lemma DirListingEntry(fs: Tree, k: Key, dots: seq<Entry>, files: seq<Entry>, t: nat)
    requires DotsShown(dots) && ListingOf(fs, k, dots, files) && fs[k] == Dir
    requires t < |files| && !IsDotName(files[t].name)
    ensures IsName(files[t].name) && k + [files[t].name] in fs
    ensures files[t].isDir == (fs[k + [files[t].name]] == Dir)
    ensures forall u :: 0 <= u < |files| && u != t ==> files[u].name != files[t].name
  {
    var n := |dots|;
    var children := files[n..];
    LeadingDots(dots, files);
    ChildEntry(fs, k, children, t - n);
    forall u | n <= u < |files| && u != t ensures files[u].name != files[t].name {
      assert files[u] == children[u - n];
    }
  }

  lemma LeadingDots(dots: seq<Entry>, files: seq<Entry>)
    requires DotsShown(dots) && |files| >= |dots| && files[..|dots|] == dots
    ensures forall u :: 0 <= u < |dots| ==> IsDotName(files[u].name)
  {
    assert forall u :: 0 <= u < |dots| ==> files[u] == dots[u];
  }

  /** An entry of a listing of the children of `k`: a name of its own, there in
      the tree with the kind the listing reports. */
  lemma ChildEntry(fs: Tree, k: Key, children: seq<Entry>, i: nat)
    requires ListsChildren(fs, k, children) && i < |children|
    ensures IsName(children[i].name) && k + [children[i].name] in fs
    ensures children[i].isDir == (fs[k + [children[i].name]] == Dir)
    ensures forall v :: 0 <= v < |children| && v != i ==> children[v].name != children[i].name
  {
    var names := Names(children);
    assert names[i] == children[i].name;
    forall v | 0 <= v < |children| && v != i ensures children[v].name != children[i].name {
      assert names[v] == children[v].name;
    }
  }

  /** The names other than "." and ".." among the first `e` entries of a listing. */
  function GoneNames(files: seq<Entry>, e: nat): (gone: set<string>)
    requires e <= |files|
    ensures forall x :: x in gone ==> !IsDotName(x)
  {
    if e == 0 then {}
    else GoneNames(files, e - 1) + (if IsDotName(files[e - 1].name) then {} else {files[e - 1].name})
  }

  lemma {:induction false} NotGone(files: seq<Entry>, e: nat, x: string)
    requires e <= |files| && forall t :: 0 <= t < e ==> files[t].name != x
    ensures x !in GoneNames(files, e)
  {
    if e > 0 {
      NotGone(files, e - 1, x);
    }
  }

  lemma {:induction false} AllGone(files: seq<Entry>, e: nat, t: nat)
    requires t < e <= |files| && !IsDotName(files[t].name)
    ensures files[t].name in GoneNames(files, e)
  {
    if t < e - 1 {
      AllGone(files, e - 1, t);
    }
  }

  /** Every name found below a listed directory is, once the whole listing has
      been read, among the names read. */
  lemma ListingCovers(fs: Tree, k: Key, dots: seq<Entry>, files: seq<Entry>, q: Key)
    requires ListingOf(fs, k, dots, files) && fs[k] == Dir && q in fs && k < q
    ensures q[|k|] in GoneNames(files, |files|)
  {
    var n := |dots|;
    var children := files[n..];
    var names := Names(children);
    assert q[|k|] in names;
    var i :| 0 <= i < |names| && names[i] == q[|k|];
    assert files[i + n] == children[i];
    AllGone(files, |files|, i + n);
  }

  /** An entry that deletes cleanly: it is there with the kind its listing
      reports, and no path at or below it is refused. */
  predicate Sound(fs: Tree, refused: set<Key>, c: Key, isDir: bool) {
    && c in fs && (fs[c] == Dir) == isDir
    && forall q :: q in refused ==> !(c <= q)
  }

  /** Where the loop of `deleteDirectory` stands after `e` entries of the listing
      `files` of `k`: entries were only removed, the subtrees of the entries read
      so far are gone and nothing else is, and every request sent listed or
      removed `remoteDir` or a path below it. */
  ghost predicate Clearing(remoteDir: string, k: Key, files: seq<Entry>, e: nat,
                           fs0: Tree, log0: seq<Request>, fs: Tree, log: seq<Request>)
  {
    && e <= |files|
    && Shrunk(fs, fs0)
    && (remoteDir != "" ==> DeletedThrough(fs0, fs, k, GoneNames(files, e)))
    && log0 <= log && RequestsUnder(log[|log0|..], remoteDir)
  }

  /** The loop starts with nothing removed, after whatever the delete sent to
      read the listing. */
  lemma ClearingStart(remoteDir: string, k: Key, files: seq<Entry>, fs0: Tree, log0: seq<Request>, log: seq<Request>)
    requires log0 <= log && RequestsUnder(log[|log0|..], remoteDir)
    ensures Clearing(remoteDir, k, files, 0, fs0, log0, fs0, log)
  {
  }

  lemma ClearingSkip(remoteDir: string, k: Key, files: seq<Entry>, e: nat,
                     fs0: Tree, log0: seq<Request>, fs: Tree, log: seq<Request>)
    requires Clearing(remoteDir, k, files, e, fs0, log0, fs, log)
    requires e < |files| && IsDotName(files[e].name)
    ensures Clearing(remoteDir, k, files, e + 1, fs0, log0, fs, log)
  {
    assert GoneNames(files, e + 1) == GoneNames(files, e);
  }

  /** Requests below `dir` sent before and after a point are requests below `dir`. */
  lemma RequestsJoin(log0: seq<Request>, log: seq<Request>, log2: seq<Request>, dir: string)
    requires log0 <= log <= log2
    requires RequestsUnder(log[|log0|..], dir) && RequestsUnder(log2[|log|..], dir)
    ensures RequestsUnder(log2[|log0|..], dir)
  {
    forall n | 0 <= n < |log2| - |log0| ensures RequestUnder(log2[|log0|..][n], dir) {
      if n < |log| - |log0| {
        assert log2[|log0|..][n] == log[|log0|..][n];
      } else {
        assert log2[|log0|..][n] == log2[|log|..][n - (|log| - |log0|)];
      }
    }
  }

  /** After the entry `files[e]` was handled, whether or not that went through:
      still only removals, nothing outside `k` removed, every request one on
      `remoteDir` or below it. */
  lemma Handled(remoteDir: string, k: Key, files: seq<Entry>, e: nat,
                fs0: Tree, log0: seq<Request>, fs: Tree, log: seq<Request>, fs2: Tree, log2: seq<Request>)
    requires Clearing(remoteDir, k, files, e, fs0, log0, fs, log)
    requires e < |files| && !IsDotName(files[e].name)
    requires Shrunk(fs2, fs)
    requires remoteDir != "" ==> KeptOutside(fs2, fs, k + [files[e].name])
    requires log <= log2 && RequestsUnder(log2[|log|..], remoteDir + "/" + files[e].name)
    ensures Shrunk(fs2, fs0)
    ensures remoteDir != "" ==> KeptOutside(fs2, fs0, k)
    ensures log0 <= log2 && RequestsUnder(log2[|log0|..], remoteDir)
  {
    RequestsUnderChild(log2[|log|..], remoteDir, files[e].name);
    RequestsJoin(log0, log, log2, remoteDir);
    if remoteDir != "" {
      var c := k + [files[e].name];
      forall q | q in fs0 && !(k <= q) ensures q in fs2 {
        if c <= q {
          PrefixTrans(k, c, q);
        }
      }
    }
  }

  /** An entry whose subtree is gone: the loop goes on to the next one. */
  lemma ClearingStep(remoteDir: string, k: Key, files: seq<Entry>, e: nat,
                     fs0: Tree, log0: seq<Request>, fs: Tree, log: seq<Request>, fs2: Tree, log2: seq<Request>)
    requires Clearing(remoteDir, k, files, e, fs0, log0, fs, log)
    requires e < |files| && !IsDotName(files[e].name)
    requires Shrunk(fs2, fs)
    requires remoteDir != "" ==>
               KeptOutside(fs2, fs, k + [files[e].name]) && Cleared(fs2, k + [files[e].name])
    requires log <= log2 && RequestsUnder(log2[|log|..], remoteDir + "/" + files[e].name)
    ensures Clearing(remoteDir, k, files, e + 1, fs0, log0, fs2, log2)
  {
    Handled(remoteDir, k, files, e, fs0, log0, fs, log, fs2, log2);
    assert GoneNames(files, e + 1) == GoneNames(files, e) + {files[e].name};
    if remoteDir != "" {
      DeletedStep(fs0, fs, fs2, k, GoneNames(files, e), files[e].name);
    }
  }

  /** Below a healthy directory, every entry not yet read deletes cleanly. */
  lemma HealthyEntry(remoteDir: string, k: Key, dots: seq<Entry>, files: seq<Entry>, e: nat,
                     fs0: Tree, log0: seq<Request>, fs: Tree, log: seq<Request>, refused: set<Key>)
    requires ProperKey(k) && DotsShown(dots) && remoteDir != ""
    requires Healthy(fs0, refused, k) ==> ListingOf(fs0, k, dots, files)
    requires Clearing(remoteDir, k, files, e, fs0, log0, fs, log)
    requires e < |files| && !IsDotName(files[e].name)
    ensures Healthy(fs0, refused, k) ==> Sound(fs, refused, k + [files[e].name], files[e].isDir)
  {
    if Healthy(fs0, refused, k) {
      var name := files[e].name;
      var c := k + [name];
      ListingEntry(fs0, k, dots, files, e);
      NotGone(files, e, name);
      assert c[|k|] == name;
      forall q | q in refused ensures !(c <= q) {
        if c <= q {
          PrefixTrans(k, c, q);
        }
      }
    }
  }

  /** Below a healthy directory whose whole listing was read, nothing is left:
      the directory itself is all there is to remove. */
  lemma HealthyEnd(remoteDir: string, k: Key, dots: seq<Entry>, files: seq<Entry>,
                   fs0: Tree, log0: seq<Request>, fs: Tree, log: seq<Request>, refused: set<Key>)
    requires remoteDir != "" && (Healthy(fs0, refused, k) ==> ListingOf(fs0, k, dots, files))
    requires Clearing(remoteDir, k, files, |files|, fs0, log0, fs, log)
    ensures Healthy(fs0, refused, k) ==> IsDir(fs, k) && Descendants(fs, k) == {} && k !in refused
  {
    if Healthy(fs0, refused, k) {
      forall q | q in fs0 && k < q ensures q[|k|] in GoneNames(files, |files|) {
        ListingCovers(fs0, k, dots, files, q);
      }
      DeletedAll(fs0, fs, k, GoneNames(files, |files|));
    }
  }

  /** What a depth-first delete of `remoteDir`, the path of the key `k`, did,
      with `refused` the keys the server refuses every request on and `passed`
      whether it went through: it only removed entries, none outside `k`; when it
      went through, nothing at or below `k` is left and its last request removed
      `remoteDir` itself; it goes through on any directory with nothing refused
      at or below it; every request it sent listed or removed `remoteDir` or a
      path below it. */
  ghost predicate Deleted(remoteDir: string, k: Key, refused: set<Key>,
                          fs0: Tree, log0: seq<Request>, fs: Tree, log: seq<Request>, passed: bool)
  {
    && Shrunk(fs, fs0)
    && (remoteDir != "" ==> KeptOutside(fs, fs0, k))
    && (passed ==> Cleared(fs, k) && log != [] && log[|log| - 1] == RemoveDir(remoteDir))
    && (remoteDir != "" && Healthy(fs0, refused, k) ==> passed)
    && log0 <= log && RequestsUnder(log[|log0|..], remoteDir)
  }

  /** A delete that stops before removing anything changed nothing. */
  lemma StoppedAtOnce(remoteDir: string, k: Key, refused: set<Key>, fs0: Tree, log0: seq<Request>, log: seq<Request>)
    requires remoteDir != "" ==> !Healthy(fs0, refused, k)
    requires log0 <= log && RequestsUnder(log[|log0|..], remoteDir)
    ensures Deleted(remoteDir, k, refused, fs0, log0, fs0, log, false)
  {
  }

  /** What a deletion of `remoteDir` that stopped part-way leaves: the tree
      only shrank, nothing outside the directory went, the directory was not
      healthy, and every request sent listed or removed something at or below it. */
  ghost predicate Abandoned(remoteDir: string, k: Key, refused: set<Key>, fs0: Tree, log0: seq<Request>,
                            fs: Tree, log: seq<Request>)
  {
    && Shrunk(fs, fs0)
    && (remoteDir != "" ==> KeptOutside(fs, fs0, k) && !Healthy(fs0, refused, k))
    && log0 <= log && RequestsUnder(log[|log0|..], remoteDir)
  }

  /** A delete that stops at an entry leaves what the entries before it did. */
  lemma StoppedAtEntry(remoteDir: string, k: Key, refused: set<Key>, fs0: Tree, log0: seq<Request>,
                       fs: Tree, log: seq<Request>)
    requires Abandoned(remoteDir, k, refused, fs0, log0, fs, log)
    ensures Deleted(remoteDir, k, refused, fs0, log0, fs, log, false)
  {
  }

  /** Once every entry is read, the request removing `remoteDir` decides: when
      it is accepted the subtree is gone; a server that accepts it on an empty,
      unrefused directory accepts it on a healthy one. */
  lemma RemovedLast(remoteDir: string, k: Key, refused: set<Key>, dots: seq<Entry>, files: seq<Entry>,
                    fs0: Tree, log0: seq<Request>, fs: Tree, log: seq<Request>, removed: bool)
    requires remoteDir != "" ==> (Healthy(fs0, refused, k) ==> ListingOf(fs0, k, dots, files))
    requires Clearing(remoteDir, k, files, |files|, fs0, log0, fs, log)
    requires removed ==> Descendants(fs, k) == {}
    requires remoteDir != "" && k != [] && IsDir(fs, k) && Descendants(fs, k) == {} && k !in refused ==> removed
    ensures var log2 := log + [RemoveDir(remoteDir)];
            Deleted(remoteDir, k, refused, fs0, log0, if removed then fs - {k} else fs, log2, removed)
  {
    var log2 := log + [RemoveDir(remoteDir)];
    assert log2[|log|..] == [RemoveDir(remoteDir)];
    RequestsJoin(log0, log, log2, remoteDir);
    if remoteDir != "" {
      HealthyEnd(remoteDir, k, dots, files, fs0, log0, fs, log, refused);
    }
    if removed {
      LeafCleared(fs, k);
    }
  }
}
