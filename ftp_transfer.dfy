/** The FTP transfer (FtpFileTransfer): recursive directory creation and
    deletion, the existence probe, listing and single-file deletion, each run on
    the FTP client its connection holds. Refused requests are reported by the
    client as `false`; the transfer turns them into IOExceptions naming the path,
    never wrapped. */
module FtpTransfer {
  import opened Paths
  import opened Remote
  import opened Failures
  import opened CommonsNet
  import opened Deletion

  /** What `createDirectories` did with one accumulated prefix. */
  datatype Probe =
    | Entered(path: string)   // CWD accepted: the directory was there
    | Made(path: string)      // CWD refused, MKD accepted; the new directory is not entered
    | Refused(path: string)   // CWD and MKD both refused
  {
    /** The client requests the probe issued. */
    function Requests(): seq<Request> {
      if Entered? then [Enter(path)] else [Enter(path), MakeDir(path)]
    }
  }

  function ProbeRequests(ps: seq<Probe>): seq<Request> {
    if ps == [] then [] else ProbeRequests(ps[..|ps| - 1]) + ps[|ps| - 1].Requests()
  }

  predicate NoneRefused(ps: seq<Probe>) {
    forall j :: 0 <= j < |ps| ==> !ps[j].Refused?
  }

  /** The tree, working directory and probes a walk ends with. */
  datatype Probed = Probed(fs: Tree, cwd: Key, probes: seq<Probe>)

  /** The probe of the prefix `pre`: entered when CWD is accepted, else made
      when MKD is, else refused. */
  function ProbeOf(fs: Tree, denied: set<Key>, pre: Prefix): Probe {
    if CwdAccepted(fs, denied, pre.key) then Entered(pre.path)
    else if MkdAccepted(fs, denied, pre.key) then Made(pre.path)
    else Refused(pre.path)
  }

  /** The tree a walk goes on with after a probe that did not stop it. */
  function Continued(fs: Tree, denied: set<Key>, k: Key): Tree {
    if CwdAccepted(fs, denied, k) then fs else fs[k := Dir]
  }

  /** The working directory a walk goes on in: the prefix, if it was entered. */
  function ContinuedIn(fs: Tree, denied: set<Key>, k: Key, cwd: Key): Key {
    if CwdAccepted(fs, denied, k) then k else cwd
  }

  /** The walk of `createDirectories` from the i-th prefix on: change into each
      accumulated prefix; when that is refused, make it (without entering it);
      stop at the first prefix that can be neither entered nor made. */
  function CreateWalk(fs: Tree, cwd: Key, denied: set<Key>, ps: seq<Prefix>, i: nat): (w: Probed)
    requires i <= |ps|
    ensures |w.probes| <= |ps| - i
    decreases |ps| - i
  {
    if i == |ps| then Probed(fs, cwd, [])
    else
      var probe := ProbeOf(fs, denied, ps[i]);
      if probe.Refused? then Probed(fs, cwd, [probe])
      else
        var k := ps[i].key;
        var w := CreateWalk(Continued(fs, denied, k), ContinuedIn(fs, denied, k, cwd), denied, ps, i + 1);
        w.(probes := [probe] + w.probes)
  }

  /** What `createDirectories` reports after a walk: nothing, or that the prefix
      it stopped on could not be created. */
  function CreateOutcome(ps: seq<Probe>): Outcome {
    if ps != [] && ps[|ps| - 1].Refused? then Fail(IOFailure(DirectoryNotCreated, ps[|ps| - 1].path))
    else Pass
  }

  /** A walk that goes on past the i-th prefix is its first probe followed by
      the walk from the next prefix. */
  lemma CreateWalkGoesOn(fs: Tree, cwd: Key, denied: set<Key>, ps: seq<Prefix>, i: nat)
    requires i < |ps|
    requires !CreateWalk(fs, cwd, denied, ps, i).probes[0].Refused?
    ensures var k := ps[i].key;
            var w := CreateWalk(fs, cwd, denied, ps, i);
            var rest := CreateWalk(Continued(fs, denied, k), ContinuedIn(fs, denied, k, cwd), denied, ps, i + 1);
            && w.fs == rest.fs && w.cwd == rest.cwd && w.probes == [w.probes[0]] + rest.probes
            && w.probes[0].path == ps[i].path
            && (w.probes[0].Entered? <==> CwdAccepted(fs, denied, k))
            && (w.probes[0].Made? ==> MkdAccepted(fs, denied, k))
  {
  }

  /** A walk that stops at the i-th prefix stops there with its only probe,
      changing nothing. */
  lemma CreateWalkStops(fs: Tree, cwd: Key, denied: set<Key>, ps: seq<Prefix>, i: nat)
    requires i < |ps|
    requires CreateWalk(fs, cwd, denied, ps, i).probes[0].Refused?
    ensures var k := ps[i].key;
            var w := CreateWalk(fs, cwd, denied, ps, i);
            && |w.probes| == 1 && w.fs == fs && w.cwd == cwd
            && w.probes[0].path == ps[i].path
            && !CwdAccepted(fs, denied, k) && !MkdAccepted(fs, denied, k)
  {
  }

  /** The walk probes the prefixes in order, one probe per prefix. */
  lemma {:induction false} CreateWalkPaths(fs: Tree, cwd: Key, denied: set<Key>, ps: seq<Prefix>, i: nat)
    requires i <= |ps|
    ensures var w := CreateWalk(fs, cwd, denied, ps, i);
            forall j :: 0 <= j < |w.probes| ==> w.probes[j].path == ps[i + j].path
    decreases |ps| - i
  {
    if i < |ps| {
      var k := ps[i].key;
      var w := CreateWalk(fs, cwd, denied, ps, i);
      if !w.probes[0].Refused? {
        CreateWalkGoesOn(fs, cwd, denied, ps, i);
        var fs1, cwd1 := Continued(fs, denied, k), ContinuedIn(fs, denied, k, cwd);
        CreateWalkPaths(fs1, cwd1, denied, ps, i + 1);
        var rest := CreateWalk(fs1, cwd1, denied, ps, i + 1);
        forall j | 1 <= j < |w.probes| ensures w.probes[j].path == ps[i + j].path {
          assert w.probes[j] == rest.probes[j - 1];
          assert i + 1 + (j - 1) == i + j;
        }
      } else {
        CreateWalkStops(fs, cwd, denied, ps, i);
      }
    }
  }

  /** Only the last probe of a walk can be refused, and a walk with no refusal
      probes every prefix. */
  lemma {:induction false} CreateWalkStopsLast(fs: Tree, cwd: Key, denied: set<Key>, ps: seq<Prefix>, i: nat)
    requires i <= |ps|
    ensures var w := CreateWalk(fs, cwd, denied, ps, i);
            && (forall j :: 0 <= j < |w.probes| - 1 ==> !w.probes[j].Refused?)
            && (NoneRefused(w.probes) ==> |w.probes| == |ps| - i)
    decreases |ps| - i
  {
    if i < |ps| {
      var k := ps[i].key;
      var w := CreateWalk(fs, cwd, denied, ps, i);
      if !w.probes[0].Refused? {
        CreateWalkGoesOn(fs, cwd, denied, ps, i);
        var fs1, cwd1 := Continued(fs, denied, k), ContinuedIn(fs, denied, k, cwd);
        CreateWalkStopsLast(fs1, cwd1, denied, ps, i + 1);
        var rest := CreateWalk(fs1, cwd1, denied, ps, i + 1);
        forall j | 1 <= j < |w.probes| - 1 ensures !w.probes[j].Refused? {
          assert w.probes[j] == rest.probes[j - 1];
        }
        if NoneRefused(w.probes) {
          forall j | 0 <= j < |rest.probes| ensures !rest.probes[j].Refused? {
            assert rest.probes[j] == w.probes[j + 1];
          }
        }
      } else {
        CreateWalkStops(fs, cwd, denied, ps, i);
      }
    }
  }

  /** The walk removes and changes nothing already in the tree. */
  lemma {:induction false} CreateWalkKeeps(fs: Tree, cwd: Key, denied: set<Key>, ps: seq<Prefix>, i: nat)
    requires i <= |ps|
    ensures var w := CreateWalk(fs, cwd, denied, ps, i);
            forall k :: k in fs ==> k in w.fs && w.fs[k] == fs[k]
    decreases |ps| - i
  {
    if i < |ps| {
      var k := ps[i].key;
      if !CreateWalk(fs, cwd, denied, ps, i).probes[0].Refused? {
        CreateWalkGoesOn(fs, cwd, denied, ps, i);
        CreateWalkKeeps(Continued(fs, denied, k), ContinuedIn(fs, denied, k, cwd), denied, ps, i + 1);
      } else {
        CreateWalkStops(fs, cwd, denied, ps, i);
      }
    }
  }

  /** Every probe that made its prefix made one that was not in the tree, and it
      is a directory when the walk ends. */
  lemma {:induction false} CreateWalkMakesNew(fs: Tree, cwd: Key, denied: set<Key>, ps: seq<Prefix>, i: nat)
    requires i <= |ps|
    ensures var w := CreateWalk(fs, cwd, denied, ps, i);
            forall j :: 0 <= j < |w.probes| && w.probes[j].Made? ==>
              ps[i + j].key !in fs && IsDir(w.fs, ps[i + j].key)
    decreases |ps| - i
  {
    if i < |ps| {
      var k := ps[i].key;
      var w := CreateWalk(fs, cwd, denied, ps, i);
      if !w.probes[0].Refused? {
        CreateWalkGoesOn(fs, cwd, denied, ps, i);
        var fs1, cwd1 := Continued(fs, denied, k), ContinuedIn(fs, denied, k, cwd);
        CreateWalkMakesNew(fs1, cwd1, denied, ps, i + 1);
        CreateWalkKeeps(fs1, cwd1, denied, ps, i + 1);
        var rest := CreateWalk(fs1, cwd1, denied, ps, i + 1);
        forall j | 0 <= j < |w.probes| && w.probes[j].Made?
          ensures ps[i + j].key !in fs && IsDir(w.fs, ps[i + j].key)
        {
          if j > 0 {
            assert w.probes[j] == rest.probes[j - 1];
            assert i + 1 + (j - 1) == i + j;
          }
        }
      } else {
        CreateWalkStops(fs, cwd, denied, ps, i);
      }
    }
  }

  /** `q` is the key of a prefix one of the probes (the walk from the i-th
      prefix on) made. */
  predicate MadeBy(ps: seq<Prefix>, i: nat, probes: seq<Probe>, q: Key)
    requires i + |probes| <= |ps|
  {
    exists j :: 0 <= j < |probes| && probes[j].Made? && q == ps[i + j].key
  }

  /** Everything the walk added is a directory made by one of its probes. */
  lemma {:induction false} CreateWalkAddsOnlyMade(fs: Tree, cwd: Key, denied: set<Key>, ps: seq<Prefix>, i: nat)
    requires i <= |ps|
    ensures var w := CreateWalk(fs, cwd, denied, ps, i);
            forall q :: q in w.fs && q !in fs ==> w.fs[q] == Dir && MadeBy(ps, i, w.probes, q)
    decreases |ps| - i
  {
    if i < |ps| {
      var k := ps[i].key;
      var w := CreateWalk(fs, cwd, denied, ps, i);
      if !w.probes[0].Refused? {
        CreateWalkGoesOn(fs, cwd, denied, ps, i);
        var fs1, cwd1 := Continued(fs, denied, k), ContinuedIn(fs, denied, k, cwd);
        CreateWalkAddsOnlyMade(fs1, cwd1, denied, ps, i + 1);
        CreateWalkKeeps(fs1, cwd1, denied, ps, i + 1);
        var rest := CreateWalk(fs1, cwd1, denied, ps, i + 1);
        forall q | q in w.fs && q !in fs
          ensures w.fs[q] == Dir && MadeBy(ps, i, w.probes, q)
        {
          if q in fs1 {
            MadeFirst(fs, cwd, denied, ps, i, q);
          } else {
            MadeLater(ps, i, w.probes[0], rest.probes, q);
          }
        }
      } else {
        CreateWalkStops(fs, cwd, denied, ps, i);
      }
    }
  }

  lemma MadeFirst(fs: Tree, cwd: Key, denied: set<Key>, ps: seq<Prefix>, i: nat, q: Key)
    requires i < |ps|
    requires !CreateWalk(fs, cwd, denied, ps, i).probes[0].Refused?
    requires q in Continued(fs, denied, ps[i].key) && q !in fs
    ensures MadeBy(ps, i, CreateWalk(fs, cwd, denied, ps, i).probes, q)
  {
    var w := CreateWalk(fs, cwd, denied, ps, i);
    CreateWalkGoesOn(fs, cwd, denied, ps, i);
    assert w.probes[0].Made? && q == ps[i + 0].key;
  }

  lemma MadeLater(ps: seq<Prefix>, i: nat, p: Probe, probes: seq<Probe>, q: Key)
    requires i + 1 + |probes| <= |ps|
    requires MadeBy(ps, i + 1, probes, q)
    ensures MadeBy(ps, i, [p] + probes, q)
  {
    var j :| 0 <= j < |probes| && probes[j].Made? && q == ps[i + 1 + j].key;
    assert ([p] + probes)[j + 1] == probes[j];
    assert i + 1 + j == i + (j + 1);
  }

  /** A walk with no refusal leaves every prefix a directory the server does not
      refuse. */
  lemma {:induction false} CreateWalkSucceeds(fs: Tree, cwd: Key, denied: set<Key>, ps: seq<Prefix>, i: nat)
    requires i <= |ps|
    requires NoneRefused(CreateWalk(fs, cwd, denied, ps, i).probes)
    ensures var w := CreateWalk(fs, cwd, denied, ps, i);
            forall n :: i <= n < |ps| ==> CwdAccepted(w.fs, denied, ps[n].key)
    decreases |ps| - i
  {
    if i < |ps| {
      var k := ps[i].key;
      var w := CreateWalk(fs, cwd, denied, ps, i);
      assert !w.probes[0].Refused?;
      CreateWalkGoesOn(fs, cwd, denied, ps, i);
      var fs1, cwd1 := Continued(fs, denied, k), ContinuedIn(fs, denied, k, cwd);
      var rest := CreateWalk(fs1, cwd1, denied, ps, i + 1);
      assert NoneRefused(rest.probes) by {
        forall j | 0 <= j < |rest.probes| ensures !rest.probes[j].Refused? {
          assert rest.probes[j] == w.probes[j + 1];
        }
      }
      CreateWalkSucceeds(fs1, cwd1, denied, ps, i + 1);
      CreateWalkKeeps(fs1, cwd1, denied, ps, i + 1);
    }
  }

  /** When every prefix is already a directory the server lets the client
      enter, the walk enters each one, changes nothing in the tree, and ends in
      the last one. */
  lemma {:induction false} CreateWalkOnExisting(fs: Tree, cwd: Key, denied: set<Key>, ps: seq<Prefix>, i: nat)
    requires i <= |ps|
    requires forall n :: i <= n < |ps| ==> CwdAccepted(fs, denied, ps[n].key)
    ensures var w := CreateWalk(fs, cwd, denied, ps, i);
            && w.fs == fs
            && w.cwd == (if i == |ps| then cwd else ps[|ps| - 1].key)
            && |w.probes| == |ps| - i
            && forall j :: 0 <= j < |w.probes| ==> w.probes[j].Entered?
    decreases |ps| - i
  {
    if i < |ps| {
      var k := ps[i].key;
      assert CwdAccepted(fs, denied, k);
      CreateWalkOnExisting(fs, k, denied, ps, i + 1);
      var w := CreateWalk(fs, cwd, denied, ps, i);
      var rest := CreateWalk(fs, k, denied, ps, i + 1);
      forall j | 1 <= j < |w.probes| ensures w.probes[j].Entered? {
        assert w.probes[j] == rest.probes[j - 1];
      }
    }
  }

  /** `createDirectories` is idempotent: after a walk with no refusal, the same
      walk again makes nothing, refuses nothing, and leaves the same tree. */
  lemma CreateTwice(fs: Tree, cwd: Key, denied: set<Key>, ps: seq<Prefix>)
    requires NoneRefused(CreateWalk(fs, cwd, denied, ps, 0).probes)
    ensures var first := CreateWalk(fs, cwd, denied, ps, 0);
            var second := CreateWalk(first.fs, first.cwd, denied, ps, 0);
            && second.fs == first.fs
            && NoneRefused(second.probes)
            && forall j :: 0 <= j < |second.probes| ==> second.probes[j].Entered?
  {
    var first := CreateWalk(fs, cwd, denied, ps, 0);
    CreateWalkSucceeds(fs, cwd, denied, ps, 0);
    CreateWalkOnExisting(first.fs, first.cwd, denied, ps, 0);
  }

  /** The working directory after probes `probes` (from the i-th prefix on,
      started in `cwd0`) is `cwd0` when none was entered, and otherwise the
      last prefix entered: a prefix made is never entered. */
  predicate EndsIn(probes: seq<Probe>, ps: seq<Prefix>, i: nat, cwd0: Key, cwd: Key)
    requires i + |probes| <= |ps|
  {
    || ((forall j :: 0 <= j < |probes| ==> !probes[j].Entered?) && cwd == cwd0)
    || (exists j :: 0 <= j < |probes| && LastEntered(probes, j) && cwd == ps[i + j].key)
  }

  predicate LastEntered(probes: seq<Probe>, j: nat)
    requires j < |probes|
  {
    probes[j].Entered? && forall l :: j < l < |probes| ==> !probes[l].Entered?
  }

  /** Where the walk leaves the working directory. */
  lemma {:induction false} CreateWalkCwd(fs: Tree, cwd: Key, denied: set<Key>, ps: seq<Prefix>, i: nat)
    requires i <= |ps|
    ensures var w := CreateWalk(fs, cwd, denied, ps, i);
            EndsIn(w.probes, ps, i, cwd, w.cwd)
    decreases |ps| - i
  {
    if i < |ps| {
      var k := ps[i].key;
      var w := CreateWalk(fs, cwd, denied, ps, i);
      if !w.probes[0].Refused? {
        CreateWalkGoesOn(fs, cwd, denied, ps, i);
        var fs1, cwd1 := Continued(fs, denied, k), ContinuedIn(fs, denied, k, cwd);
        CreateWalkCwd(fs1, cwd1, denied, ps, i + 1);
        var rest := CreateWalk(fs1, cwd1, denied, ps, i + 1);
        EndsInShift(w.probes[0], rest.probes, ps, i, cwd, cwd1, w.cwd);
      } else {
        CreateWalkStops(fs, cwd, denied, ps, i);
      }
    }
  }

  /** One probe in front of probes that end in `cwd`: an entered prefix is
      where the rest starts; any other probe leaves the rest starting in `cwd0`. */
  lemma EndsInShift(p: Probe, rest: seq<Probe>, ps: seq<Prefix>, i: nat, cwd0: Key, cwd1: Key, cwd: Key)
    requires i + 1 + |rest| <= |ps|
    requires cwd1 == if p.Entered? then ps[i].key else cwd0
    requires EndsIn(rest, ps, i + 1, cwd1, cwd)
    ensures EndsIn([p] + rest, ps, i, cwd0, cwd)
  {
    var probes := [p] + rest;
    if exists j :: 0 <= j < |rest| && LastEntered(rest, j) && cwd == ps[i + 1 + j].key {
      var j :| 0 <= j < |rest| && LastEntered(rest, j) && cwd == ps[i + 1 + j].key;
      assert probes[j + 1] == rest[j];
      assert forall l :: j + 1 < l < |probes| ==> probes[l] == rest[l - 1];
      assert LastEntered(probes, j + 1) && i + (j + 1) == i + 1 + j;
    } else {
      assert forall j :: 0 <= j < |rest| ==> !rest[j].Entered?;
      assert forall l :: 0 < l < |probes| ==> probes[l] == rest[l - 1];
      if p.Entered? {
        assert LastEntered(probes, 0) && cwd == ps[i + 0].key;
      }
    }
  }

  lemma ProbeRequestsAppend(ps: seq<Probe>, p: Probe)
    ensures ProbeRequests(ps + [p]) == ProbeRequests(ps) + p.Requests()
  {
    assert (ps + [p])[..|ps|] == ps;
  }

  /** The log after a probe: what it was, then the probe's requests. */
  lemma LogAfterProbe(log0: seq<Request>, ps: seq<Probe>, before: seq<Request>, after: seq<Request>, p: Probe)
    requires before == log0 + ProbeRequests(ps)
    requires after == before + p.Requests()
    ensures after == log0 + ProbeRequests(ps + [p])
  {
    ProbeRequestsAppend(ps, p);
    assert log0 + ProbeRequests(ps) + p.Requests() == log0 + (ProbeRequests(ps) + p.Requests());
  }

  /** The walk stands, between its probes, where the rest of it is the
      remainder of the whole walk. */
  predicate Resumes(whole: Probed, done: seq<Probe>, rest: Probed) {
    whole.fs == rest.fs && whole.cwd == rest.cwd && whole.probes == done + rest.probes
  }

  /** One probe of the prefix `k` from the working directory `cwd`: the replies
      that lead to it and the tree and directory it leaves behind. */
  predicate Tried(fs: Tree, denied: set<Key>, cwd: Key, k: Key, p: Probe, fs2: Tree, cwd2: Key) {
    match p
    case Entered(_) => CwdAccepted(fs, denied, k) && fs2 == fs && cwd2 == k
    case Made(_) =>
      !CwdAccepted(fs, denied, k) && MkdAccepted(fs, denied, k) && fs2 == fs[k := Dir] && cwd2 == cwd
    case Refused(_) =>
      !CwdAccepted(fs, denied, k) && !MkdAccepted(fs, denied, k) && fs2 == fs && cwd2 == cwd
  }

  /** A probe of the next prefix either leaves the walk ready to resume from the
      prefix after it, or is the probe the whole walk ends with. */
  lemma Advance(whole: Probed, done: seq<Probe>, fs: Tree, cwd: Key, denied: set<Key>, ps: seq<Prefix>, i: nat,
                p: Probe, fs2: Tree, cwd2: Key)
    requires i < |ps|
    requires Resumes(whole, done, CreateWalk(fs, cwd, denied, ps, i))
    requires Tried(fs, denied, cwd, ps[i].key, p, fs2, cwd2) && p.path == ps[i].path
    ensures !p.Refused? ==> Resumes(whole, done + [p], CreateWalk(fs2, cwd2, denied, ps, i + 1))
    ensures p.Refused? ==> whole == Probed(fs2, cwd2, done + [p])
  {
  }

  /** The body of the `createDirectories` loop for one prefix: change into it,
      and when that is refused, make it. */
  method ProbePrefix(client: FtpClient, path: string) returns (p: Probe)
    requires client.Valid()
    modifies client
    ensures client.Valid() && p.path == path
    ensures client.log == old(client.log) + p.Requests()
    ensures Tried(old(client.fs), client.denied, old(client.cwd), Resolve(old(client.cwd), path), p, client.fs, client.cwd)
  {
    var entered := client.ChangeWorkingDirectory(path);
    if entered {
      return Entered(path);
    }
    var created := client.MakeDirectory(path);
    if created {
      return Made(path);
    }
    p := Refused(path);
  }

  /** Where the loop of `createDirectories` stands after reading j pieces of the
      path, i of them segments: the path built so far is the i-th accumulated
      prefix, the client stands where the walk from the i-th prefix starts, and
      no probe so far was refused. */
  ghost predicate Along(folders: seq<string>, segs: seq<string>, j: nat, i: nat, path: string,
                        whole: Probed, done: seq<Probe>, log0: seq<Request>,
                        fs: Tree, cwd: Key, denied: set<Key>, log: seq<Request>)
  {
    PiecesRead(folders, segs, j, i, path) && Stage(segs, i, whole, done, log0, fs, cwd, denied, log)
  }

  ghost predicate Stage(segs: seq<string>, i: nat, whole: Probed, done: seq<Probe>, log0: seq<Request>,
                        fs: Tree, cwd: Key, denied: set<Key>, log: seq<Request>)
  {
    && i <= |segs| && (forall t :: 0 <= t < |segs| ==> IsSegment(segs[t]))
    && Resumes(whole, done, CreateWalk(fs, cwd, denied, Prefixes(segs), i))
    && NoneRefused(done)
    && log == log0 + ProbeRequests(done)
  }

  lemma AlongStart(folders: seq<string>, segs: seq<string>, fs: Tree, cwd: Key, denied: set<Key>, log: seq<Request>)
    requires NonEmpty(folders) == segs && forall t :: 0 <= t < |segs| ==> IsSegment(segs[t])
    ensures Along(folders, segs, 0, 0, "", CreateWalk(fs, cwd, denied, Prefixes(segs), 0), [], log, fs, cwd, denied, log)
  {
    PiecesReadStart(folders, segs);
  }

  /** An empty piece changes nothing but the count of pieces read. */
  lemma AlongSkip(folders: seq<string>, segs: seq<string>, j: nat, i: nat, path: string,
                  whole: Probed, done: seq<Probe>, log0: seq<Request>,
                  fs: Tree, cwd: Key, denied: set<Key>, log: seq<Request>)
    requires Along(folders, segs, j, i, path, whole, done, log0, fs, cwd, denied, log)
    requires j < |folders| && folders[j] == ""
    ensures Along(folders, segs, j + 1, i, path, whole, done, log0, fs, cwd, denied, log)
  {
    PiecesReadSkip(folders, segs, j, i, path);
  }

  /** One turn of the `createDirectories` loop on a non-empty piece: the walk
      either goes on past its prefix or ends with it. */
  method CreateStep(client: FtpClient, folders: seq<string>, j: nat, path: string, ghost prev: string,
                    ghost segs: seq<string>, ghost i: nat, ghost whole: Probed, ghost done: seq<Probe>,
                    ghost log0: seq<Request>) returns (probe: Probe)
    requires client.Valid() && j < |folders| && folders[j] != "" && path == prev + "/" + folders[j]
    requires Along(folders, segs, j, i, prev, whole, done, log0, client.fs, client.cwd, client.denied, client.log)
    modifies client
    ensures client.Valid() && probe.path == path
    ensures !probe.Refused? ==>
              Along(folders, segs, j + 1, i + 1, path, whole, done + [probe], log0,
                    client.fs, client.cwd, client.denied, client.log)
    ensures probe.Refused? ==>
              && whole == Probed(client.fs, client.cwd, done + [probe])
              && client.log == log0 + ProbeRequests(whole.probes)
  {
    PiecesReadNext(folders, segs, j, i, prev, path);
    PrefixAt(client.cwd, segs, i);
    ghost var fs1, cwd1, before := client.fs, client.cwd, client.log;
    probe := ProbePrefix(client, path);
    Advance(whole, done, fs1, cwd1, client.denied, Prefixes(segs), i, probe, client.fs, client.cwd);
    LogAfterProbe(log0, done, before, client.log, probe);
    if !probe.Refused? {
      assert NoneRefused(done + [probe]);
    }
  }

  /** The loop of `createDirectories`: reads the pieces of the path in order,
      skips the empty ones and probes the prefix each other one ends, stopping at
      the first refusal; what it does is the whole walk `whole`. */
  method CreateLoop(client: FtpClient, folders: seq<string>, ghost segs: seq<string>,
                    ghost whole: Probed, ghost log0: seq<Request>) returns (r: Outcome)
    requires client.Valid()
    requires Along(folders, segs, 0, 0, "", whole, [], log0, client.fs, client.cwd, client.denied, client.log)
    modifies client
    ensures client.Valid() && client.fs == whole.fs && client.cwd == whole.cwd
    ensures client.log == log0 + ProbeRequests(whole.probes) && r == CreateOutcome(whole.probes)
  {
    ghost var done: seq<Probe> := [];
    ghost var i := 0;
    var path := "";
    var j := 0;
    while j < |folders|
      invariant client.Valid()
      invariant Along(folders, segs, j, i, path, whole, done, log0, client.fs, client.cwd, client.denied, client.log)
      decreases |folders| - j
    {
      var folder := folders[j];
      if folder != "" {
        ghost var prev := path;
        path := path + "/" + folder;
        var probe := CreateStep(client, folders, j, path, prev, segs, i, whole, done, log0);
        if probe.Refused? {
          r := Fail(IOFailure(DirectoryNotCreated, path));
          StoppedOutcome(done, probe);
          return;
        }
        done := done + [probe];
        i := i + 1;
      } else {
        AlongSkip(folders, segs, j, i, path, whole, done, log0, client.fs, client.cwd, client.denied, client.log);
      }
      j := j + 1;
    }
    CreateFinished(folders, segs, i, path, whole, done, log0, client.fs, client.cwd, client.denied, client.log);
    r := Pass;
  }

  /** A walk that ends with a refusal reports the prefix it stopped on. */
  lemma StoppedOutcome(done: seq<Probe>, probe: Probe)
    requires probe.Refused?
    ensures CreateOutcome(done + [probe]) == Fail(IOFailure(DirectoryNotCreated, probe.path))
  {
  }

  /** Once the loop of `createDirectories` has read every piece, the walk has
      nothing left: what it did so far is the whole walk, and it went through. */
  lemma CreateFinished(folders: seq<string>, segs: seq<string>, i: nat, path: string,
                       whole: Probed, done: seq<Probe>, log0: seq<Request>,
                       fs: Tree, cwd: Key, denied: set<Key>, log: seq<Request>)
    requires Along(folders, segs, |folders|, i, path, whole, done, log0, fs, cwd, denied, log)
    ensures whole == Probed(fs, cwd, done) && log == log0 + ProbeRequests(whole.probes)
    ensures CreateOutcome(whole.probes) == Pass
  {
    PiecesReadAll(folders, segs, i, path);
  }

  /** A walk that reports nothing, and can be refused only at its end, was
      refused nowhere. */
  lemma PassedNoneRefused(probes: seq<Probe>)
    requires forall j :: 0 <= j < |probes| - 1 ==> !probes[j].Refused?
    requires CreateOutcome(probes) == Pass
    ensures NoneRefused(probes)
  {
  }

  /** After `createDirectories` of a path with at least one segment went
      through, the path names a directory the client may enter, wherever the
      walk left the working directory. */
  lemma CreatedThenEnterable(fs: Tree, cwd: Key, denied: set<Key>, remotePath: string)
    requires ProperKey(cwd) && IsAbsolute(remotePath) && Segments(remotePath) != []
    requires CreateOutcome(CreateWalk(fs, cwd, denied, Prefixes(Segments(remotePath)), 0).probes) == Pass
    ensures var w := CreateWalk(fs, cwd, denied, Prefixes(Segments(remotePath)), 0);
            ProperKey(w.cwd) && CwdAccepted(w.fs, denied, Resolve(w.cwd, remotePath))
  {
    var ps := Prefixes(Segments(remotePath));
    var w := CreateWalk(fs, cwd, denied, ps, 0);
    CreateWalkStopsLast(fs, cwd, denied, ps, 0);
    PassedNoneRefused(w.probes);
    CreateWalkSucceeds(fs, cwd, denied, ps, 0);
    CreateWalkCwd(fs, cwd, denied, ps, 0);
    LastPrefix(cwd, remotePath);
    assert ProperKey(w.cwd) by {
      if exists j :: 0 <= j < |w.probes| && LastEntered(w.probes, j) && w.cwd == ps[0 + j].key {
        var j :| 0 <= j < |w.probes| && LastEntered(w.probes, j) && w.cwd == ps[0 + j].key;
      }
    }
    LastPrefix(w.cwd, remotePath);
  }

  /** The failure `deleteDirectory(dir)` raises: the IOException of a removal
      refused on `dir` itself or on a path below it. */
  predicate DeleteFailure(e: Failure, dir: string) {
    || e == IOFailure(DirectoryNotRemoved, dir)
    || (&& e.IOFailure? && (e.reason == FileNotDeleted || e.reason == DirectoryNotRemoved)
        && dir + "/" <= e.path)
  }

  /** The failure of the recursive call on an entry is a failure below its parent. */
  lemma ChildFailure(e: Failure, dir: string, name: string)
    requires DeleteFailure(e, dir + "/" + name)
    ensures DeleteFailure(e, dir)
  {
    var child := dir + "/" + name;
    assert dir + "/" <= child;
    if child + "/" <= e.path {
      assert child <= child + "/";
      PrefixTrans(dir + "/", child, child + "/");
      PrefixTrans(dir + "/", child + "/", e.path);
    }
  }

  /** A delete that failed stopped at the request it sent last: a DELE or RMD
      the server refuses (from `cwd`, on the tree `fs` it left), and `e` is the
      IOException naming that request's path. */
  predicate RefusedLast(e: Failure, fs: Tree, denied: set<Key>, cwd: Key, log0: seq<Request>, log: seq<Request>)
    requires ProperKey(cwd)
  {
    && |log0| < |log|
    && match log[|log| - 1]
       case RemoveFile(p) => !DeleAccepted(fs, denied, Resolve(cwd, p)) && e == IOFailure(FileNotDeleted, p)
       case RemoveDir(p) => !RmdAccepted(fs, denied, Resolve(cwd, p)) && e == IOFailure(DirectoryNotRemoved, p)
       case _ => false
  }

  /** What the FTP connection hands to the transfer: its logged-in client. */
  class FtpConnection {
    const client: FtpClient

    constructor(client: FtpClient)
      ensures this.client == client
    {
      this.client := client;
    }
  }

  class FtpFileTransfer {
    const client: FtpClient

    constructor(connection: FtpConnection)
      ensures client == connection.client
    {
      client := connection.client;
    }

    /** Creates every directory along `remotePath`, one accumulated prefix at a
        time, as `CreateWalk` describes. */
    method CreateDirectories(remotePath: string) returns (r: Outcome)
      requires client.Valid()
      modifies client
      ensures client.Valid()
      ensures var w := CreateWalk(old(client.fs), old(client.cwd), client.denied, Prefixes(Segments(remotePath)), 0);
              && client.fs == w.fs && client.cwd == w.cwd
              && client.log == old(client.log) + ProbeRequests(w.probes)
              && r == CreateOutcome(w.probes)
    {
      var folders := Split(remotePath);
      ghost var segs := Segments(remotePath);
      SplitThenSkipEmpty(remotePath);
      ghost var whole := CreateWalk(client.fs, client.cwd, client.denied, Prefixes(segs), 0);
      AlongStart(folders, segs, client.fs, client.cwd, client.denied, client.log);
      r := CreateLoop(client, folders, segs, whole, client.log);
    }

    /** How much is left for `deleteDirectory(remoteDir)` to remove: the size of
        the subtree the path names. */
    ghost function DeleteMeasure(remoteDir: string): nat
      reads client
    {
      if !ProperKey(client.cwd) then 0 else |Subtree(client.fs, Resolve(client.cwd, remoteDir))|
    }

    /** Deletes `remoteDir` depth first: lists it, removes each entry (files with
        DELE, directories by a recursive call) and then the directory itself with
        RMD. The first refusal is raised as an IOException naming its path. */
    method DeleteDirectory(remoteDir: string) returns (r: Outcome)
      requires client.Valid()
      modifies client
      decreases if remoteDir == "" then 1 else 0, DeleteMeasure(remoteDir), 3
      ensures client.Valid() && client.cwd == old(client.cwd)
      ensures Deleted(remoteDir, Resolve(client.cwd, remoteDir), client.denied,
                      old(client.fs), old(client.log), client.fs, client.log, r.Pass?)
      ensures r.Fail? ==>
                && DeleteFailure(r.error, remoteDir)
                && RefusedLast(r.error, client.fs, client.denied, client.cwd, old(client.log), client.log)
    {
      ghost var fs0, log0, bound := client.fs, client.log, DeleteMeasure(remoteDir);
      ghost var k := Resolve(client.cwd, remoteDir);
      ghost var dots := if client.listsDots then DotEntries else [];
      var files := client.ListFiles(remoteDir);
      assert Healthy(fs0, client.denied, k) ==> ListingOf(fs0, k, dots, files);
      var sub := ClearEntries(remoteDir, files, fs0, log0, k, dots, bound);
      if sub.Fail? {
        r := sub;
        StoppedAtEntry(remoteDir, k, client.denied, fs0, log0, client.fs, client.log);
        return;
      }
      RemovedLast(remoteDir, k, client.denied, dots, files, fs0, log0, client.fs, client.log,
                  RmdAccepted(client.fs, client.denied, k));
      var removed := client.RemoveDirectory(remoteDir);
      if removed {
        r := Pass;
      } else {
        r := Fail(IOFailure(DirectoryNotRemoved, remoteDir));
      }
    }

    /** The loop of `deleteDirectory` over the listing `files` of `remoteDir`,
        skipping "." and "..": it stops at the first entry that fails and
        returns that failure. */
    method ClearEntries(remoteDir: string, files: seq<Entry>, ghost fs0: Tree, ghost log0: seq<Request>,
                        ghost k: Key, ghost dots: seq<Entry>, ghost bound: nat) returns (sub: Outcome)
      requires client.Valid() && client.fs == fs0 && client.log == log0 && k == Resolve(client.cwd, remoteDir)
      requires DotsShown(dots) && (files != [] ==> ListingOf(fs0, k, dots, files))
      requires remoteDir != "" ==> bound == |Subtree(fs0, k)|
      modifies client
      decreases if remoteDir == "" then 1 else 0, bound, 2
      ensures client.Valid() && client.cwd == old(client.cwd)
      ensures sub.Pass? ==> Clearing(remoteDir, k, files, |files|, fs0, log0, client.fs, client.log)
      ensures sub.Fail? ==>
                && DeleteFailure(sub.error, remoteDir)
                && RefusedLast(sub.error, client.fs, client.denied, client.cwd, log0, client.log)
                && Abandoned(remoteDir, k, client.denied, fs0, log0, client.fs, client.log)
    {
      ghost var cwd0 := client.cwd;
      ClearingStart(remoteDir, k, files, fs0, log0, log0);
      var e := 0;
      while e < |files|
        invariant client.Valid() && client.cwd == cwd0
        invariant Clearing(remoteDir, k, files, e, fs0, log0, client.fs, client.log)
        decreases |files| - e
      {
        var name := files[e].name;
        if name == "." || name == ".." {
          ClearingSkip(remoteDir, k, files, e, fs0, log0, client.fs, client.log);
        } else {
          sub := ClearEntry(remoteDir, files, e, fs0, log0, k, dots, bound);
          if sub.Fail? {
            return;
          }
        }
        e := e + 1;
      }
      sub := Pass;
    }

    /** One turn of the loop of `deleteDirectory`, on an entry other than "."
        and "..": the entry is deleted, or its failure is returned. */
    method ClearEntry(remoteDir: string, files: seq<Entry>, e: nat, ghost fs0: Tree, ghost log0: seq<Request>,
                      ghost k: Key, ghost dots: seq<Entry>, ghost bound: nat) returns (sub: Outcome)
      requires client.Valid() && e < |files| && !IsDotName(files[e].name) && k == Resolve(client.cwd, remoteDir)
      requires DotsShown(dots) && ListingOf(fs0, k, dots, files)
      requires remoteDir != "" ==> bound == |Subtree(fs0, k)|
      requires Clearing(remoteDir, k, files, e, fs0, log0, client.fs, client.log)
      modifies client
      decreases if remoteDir == "" then 1 else 0, bound, 1
      ensures client.Valid() && client.cwd == old(client.cwd)
      ensures sub.Pass? ==> Clearing(remoteDir, k, files, e + 1, fs0, log0, client.fs, client.log)
      ensures sub.Fail? ==>
                && DeleteFailure(sub.error, remoteDir)
                && RefusedLast(sub.error, client.fs, client.denied, client.cwd, log0, client.log)
                && Abandoned(remoteDir, k, client.denied, fs0, log0, client.fs, client.log)
    {
      ListingEntry(fs0, k, dots, files, e);
      if remoteDir != "" {
        HealthyEntry(remoteDir, k, dots, files, e, fs0, log0, client.fs, client.log, client.denied);
      }
      ghost var fs1, log1 := client.fs, client.log;
      sub := DeleteEntry(remoteDir, files[e], fs0, bound);
      if sub.Fail? {
        Handled(remoteDir, k, files, e, fs0, log0, fs1, log1, client.fs, client.log);
        return;
      }
      ClearingStep(remoteDir, k, files, e, fs0, log0, fs1, log1, client.fs, client.log);
    }

    /** One entry of the listing of `remoteDir`: a directory is deleted by the
        recursive call, anything else by DELE, whose refusal is raised. */
    method DeleteEntry(remoteDir: string, entry: Entry, ghost fs0: Tree, ghost bound: nat) returns (r: Outcome)
      requires client.Valid() && IsName(entry.name)
      requires remoteDir != "" ==>
                 && Resolve(client.cwd, remoteDir) in client.fs && Shrunk(client.fs, fs0)
                 && bound == |Subtree(fs0, Resolve(client.cwd, remoteDir))|
      modifies client
      decreases if remoteDir == "" then 1 else 0, bound, 0
      ensures client.Valid()
      ensures var c := Resolve(client.cwd, remoteDir) + [entry.name];
              && client.cwd == old(client.cwd)
              && Shrunk(client.fs, old(client.fs))
              && (remoteDir != "" ==> KeptOutside(client.fs, old(client.fs), c))
              && (remoteDir != "" && r.Pass? ==> Cleared(client.fs, c))
              && (r.Fail? ==>
                    && DeleteFailure(r.error, remoteDir)
                    && RefusedLast(r.error, client.fs, client.denied, client.cwd, old(client.log), client.log))
              && (remoteDir != "" && Sound(old(client.fs), client.denied, c, entry.isDir) ==> r.Pass?)
              && old(client.log) <= client.log
              && RequestsUnder(client.log[|old(client.log)|..], remoteDir + "/" + entry.name)
    {
      var fullPath := remoteDir + "/" + entry.name;
      ghost var fs1 := client.fs;
      if remoteDir != "" {
        ResolveChild(client.cwd, remoteDir, entry.name);
      }
      if entry.isDir {
        if remoteDir != "" {
          SubtreeShrinks(fs0, client.fs, Resolve(client.cwd, remoteDir), Resolve(client.cwd, fullPath));
        }
        r := DeleteDirectory(fullPath);
        if r.Fail? {
          ChildFailure(r.error, remoteDir, entry.name);
        }
      } else {
        ghost var c := Resolve(client.cwd, fullPath);
        var deleted := client.DeleteFile(fullPath);
        if deleted {
          r := Pass;
          RemovedFileCleared(fs1, c);
        } else {
          r := Fail(IOFailure(FileNotDeleted, fullPath));
          assert remoteDir + "/" <= fullPath;
        }
      }
    }

    /** Whether `remotePath` names anything, judged by a non-empty listing: a
        file lists as itself, a directory as its entries, after "." and ".."
        when the server shows them. An empty directory on a server that hides
        them therefore reads as missing. */
    method Exists(remotePath: string) returns (r: bool)
      requires client.Valid()
      ensures var k := Resolve(client.cwd, remotePath);
              r <==> && k !in client.denied && k in client.fs
                     && (client.fs[k] == File || client.listsDots || Descendants(client.fs, k) != {})
    {
      var files := client.ListFiles(remotePath);
      r := |files| > 0;
      ghost var k := Resolve(client.cwd, remotePath);
      if k !in client.denied && IsDir(client.fs, k) && !client.listsDots {
        assert files[0..] == files;
        EmptyListing(client.fs, k, files);
      }
    }

    /** The names LIST reports for `remoteDir`, in its order. */
    method ListFiles(remoteDir: string) returns (names: seq<string>)
      requires client.Valid()
      ensures var k := Resolve(client.cwd, remoteDir);
              var dots := if client.listsDots then [".", ".."] else [];
              && (k in client.denied || k !in client.fs ==> names == [])
              && (k !in client.denied && IsFile(client.fs, k) ==> k != [] && names == [k[|k| - 1]])
              && (k !in client.denied && IsDir(client.fs, k) ==>
                    |names| >= |dots| && names[..|dots|] == dots && ListsNames(client.fs, k, names[|dots|..]))
    {
      var files := client.ListFiles(remoteDir);
      names := Names(files);
      ghost var n := if client.listsDots then 2 else 0;
      if |files| >= n {
        NamesSplit(files, n);
      }
    }

    /** Deletes one file; the client's answer is not looked at, so a refusal
        goes unreported. */
    method Delete(remotePath: string) returns (r: Outcome)
      requires client.Valid()
      modifies client
      ensures client.Valid() && client.cwd == old(client.cwd) && r == Pass
      ensures client.log == old(client.log) + [RemoveFile(remotePath)]
      ensures var k := Resolve(client.cwd, remotePath);
              client.fs == if DeleAccepted(old(client.fs), client.denied, k) then old(client.fs) - {k} else old(client.fs)
    {
      var _ := client.DeleteFile(remotePath);
      r := Pass;
    }
  }

  /** A directory listed without "." and ".." lists as empty exactly when
      nothing is below it. */
  lemma EmptyListing(fs: Tree, k: Key, files: seq<Entry>)
    requires ListsChildren(fs, k, files)
    ensures files == [] <==> Descendants(fs, k) == {}
  {
    if files != [] {
      assert k + [files[0].name] in Descendants(fs, k);
    }
  }
}
