/** The SFTP transfer (SftpFileTransfer): recursive directory creation and
    deletion, the existence probe, listing and the no-op delete, each run on the
    channel its connection hands out. */
module SftpTransfer {
  import opened Paths
  import opened Remote
  import opened Failures
  import opened Jsch
  import opened SftpConnection
  import opened Deletion

  const CreateMessage: string := "Erro ao criar diretórios: "
  const DeleteMessage: string := "Erro ao deletar diretório: "
  const ListMessage: string := "Erro ao listar arquivos"

  /** What `createDirectories` did with one accumulated prefix. */
  datatype Visit =
    | Entered(path: string)                   // cd succeeded: the directory was there
    | Made(path: string)                      // cd: no such file; mkdir; cd
    | EnterRefused(path: string, code: nat)   // cd refused with another code
    | MakeRefused(path: string, code: nat)    // cd: no such file; mkdir refused
    | ReenterRefused(path: string, code: nat) // mkdir succeeded, the cd after it was refused
  {
    predicate Done() {
      Entered? || Made?
    }

    predicate Creates() {
      Made? || ReenterRefused?
    }

    /** The channel requests the visit issued. */
    function Requests(): seq<Request> {
      match this
      case Entered(p) => [Enter(p)]
      case Made(p) => [Enter(p), MakeDir(p), Enter(p)]
      case EnterRefused(p, _) => [Enter(p)]
      case MakeRefused(p, _) => [Enter(p), MakeDir(p)]
      case ReenterRefused(p, _) => [Enter(p), MakeDir(p), Enter(p)]
    }
  }

  function VisitRequests(vs: seq<Visit>): seq<Request> {
    if vs == [] then [] else VisitRequests(vs[..|vs| - 1]) + vs[|vs| - 1].Requests()
  }

  predicate AllDone(vs: seq<Visit>) {
    forall j :: 0 <= j < |vs| ==> vs[j].Done()
  }

  /** The tree, working directory and visits a walk ends with. */
  datatype Walked = Walked(fs: Tree, cwd: Key, visits: seq<Visit>)

  /** The visit of the prefix `pre`: cd into it; on "no such file", mkdir it
      and cd into it again. */
  function VisitOf(fs: Tree, faults: map<Key, nat>, pre: Prefix): Visit {
    var k := pre.key;
    match CdRefusal(fs, faults, k)
    case None => Entered(pre.path)
    case Some(code) =>
      if code != SSH_FX_NO_SUCH_FILE then EnterRefused(pre.path, code)
      else
        match MkdirRefusal(fs, faults, k)
        case Some(refused) => MakeRefused(pre.path, refused)
        case None =>
          match CdRefusal(fs[k := Dir], faults, k)
          case Some(refused) => ReenterRefused(pre.path, refused)
          case None => Made(pre.path)
  }

  /** The tree after the visit of `pre`: the prefix is added when the visit
      made it. */
  function Continued(fs: Tree, faults: map<Key, nat>, pre: Prefix): Tree {
    if VisitOf(fs, faults, pre).Creates() then fs[pre.key := Dir] else fs
  }

  /** The walk of `createDirectories` from the i-th prefix on: visit each
      accumulated prefix in turn, entering it, and stop at the first visit that
      is refused. */
  function CreateWalk(fs: Tree, cwd: Key, faults: map<Key, nat>, ps: seq<Prefix>, i: nat): (w: Walked)
    requires i <= |ps|
    ensures |w.visits| <= |ps| - i
    decreases |ps| - i
  {
    if i == |ps| then Walked(fs, cwd, [])
    else
      var v := VisitOf(fs, faults, ps[i]);
      if !v.Done() then Walked(Continued(fs, faults, ps[i]), cwd, [v])
      else
        var w := CreateWalk(Continued(fs, faults, ps[i]), ps[i].key, faults, ps, i + 1);
        w.(visits := [v] + w.visits)
  }

  /** The status code of the refusal a walk stopped on, if it stopped. */
  function Escaped(vs: seq<Visit>): Option<nat> {
    if vs == [] || vs[|vs| - 1].Done() then None else Some(vs[|vs| - 1].code)
  }

  /** What `createDirectories` reports after a walk: nothing, or the refusal it
      stopped on, wrapped with the whole requested path. */
  function CreateOutcome(remotePath: string, vs: seq<Visit>): Outcome {
    match Escaped(vs)
    case None => Pass
    case Some(code) => Fail(SftpError(CreateMessage + remotePath, Some(SftpStatus(code))))
  }

  /** A walk that goes on past the i-th prefix is its first visit followed by
      the walk from the next prefix, in the prefix just entered. */
  lemma CreateWalkGoesOn(fs: Tree, cwd: Key, faults: map<Key, nat>, ps: seq<Prefix>, i: nat)
    requires i < |ps|
    requires CreateWalk(fs, cwd, faults, ps, i).visits[0].Done()
    ensures var k := ps[i].key;
            var w := CreateWalk(fs, cwd, faults, ps, i);
            var rest := CreateWalk(Continued(fs, faults, ps[i]), k, faults, ps, i + 1);
            && w.fs == rest.fs && w.cwd == rest.cwd && w.visits == [w.visits[0]] + rest.visits
            && w.visits[0].path == ps[i].path
            && (w.visits[0].Made? <==> CdRefusal(fs, faults, k).Some?)
            && (w.visits[0].Made? ==> k !in fs && MkdirRefusal(fs, faults, k).None?)
            && (w.visits[0].Entered? ==> IsDir(fs, k) && k !in faults)
  {
  }

  /** A walk that stops at the i-th prefix stops there with its only visit,
      having made the prefix or left the tree alone. */
  lemma CreateWalkStops(fs: Tree, cwd: Key, faults: map<Key, nat>, ps: seq<Prefix>, i: nat)
    requires i < |ps|
    requires !CreateWalk(fs, cwd, faults, ps, i).visits[0].Done()
    ensures var k := ps[i].key;
            var w := CreateWalk(fs, cwd, faults, ps, i);
            && |w.visits| == 1 && w.cwd == cwd && w.visits[0].path == ps[i].path
            && w.fs == (if w.visits[0].Creates() then fs[k := Dir] else fs)
            && (w.visits[0].Creates() ==> k !in fs)
  {
  }

  /** The walk visits the prefixes in order, one visit per prefix. */
  lemma {:induction false} CreateWalkPaths(fs: Tree, cwd: Key, faults: map<Key, nat>, ps: seq<Prefix>, i: nat)
    requires i <= |ps|
    ensures var w := CreateWalk(fs, cwd, faults, ps, i);
            forall j :: 0 <= j < |w.visits| ==> w.visits[j].path == ps[i + j].path
    decreases |ps| - i
  {
    if i < |ps| {
      var k := ps[i].key;
      var w := CreateWalk(fs, cwd, faults, ps, i);
      if w.visits[0].Done() {
        CreateWalkGoesOn(fs, cwd, faults, ps, i);
        var grown := Continued(fs, faults, ps[i]);
        CreateWalkPaths(grown, k, faults, ps, i + 1);
        var rest := CreateWalk(grown, k, faults, ps, i + 1);
        forall j | 1 <= j < |w.visits| ensures w.visits[j].path == ps[i + j].path {
          assert w.visits[j] == rest.visits[j - 1];
          assert i + 1 + (j - 1) == i + j;
        }
      } else {
        CreateWalkStops(fs, cwd, faults, ps, i);
      }
    }
  }

  /** Only the last visit of a walk can be a refusal, and a walk with no refusal
      visits every prefix. */
  lemma {:induction false} CreateWalkStopsLast(fs: Tree, cwd: Key, faults: map<Key, nat>, ps: seq<Prefix>, i: nat)
    requires i <= |ps|
    ensures var w := CreateWalk(fs, cwd, faults, ps, i);
            && (forall j :: 0 <= j < |w.visits| - 1 ==> w.visits[j].Done())
            && (AllDone(w.visits) ==> |w.visits| == |ps| - i)
    decreases |ps| - i
  {
    if i < |ps| {
      var k := ps[i].key;
      var w := CreateWalk(fs, cwd, faults, ps, i);
      if w.visits[0].Done() {
        CreateWalkGoesOn(fs, cwd, faults, ps, i);
        var grown := Continued(fs, faults, ps[i]);
        CreateWalkStopsLast(grown, k, faults, ps, i + 1);
        var rest := CreateWalk(grown, k, faults, ps, i + 1);
        forall j | 1 <= j < |w.visits| - 1 ensures w.visits[j].Done() {
          assert w.visits[j] == rest.visits[j - 1];
        }
        if AllDone(w.visits) {
          forall j | 0 <= j < |rest.visits| ensures rest.visits[j].Done() {
            assert rest.visits[j] == w.visits[j + 1];
          }
        }
      } else {
        CreateWalkStops(fs, cwd, faults, ps, i);
      }
    }
  }

  /** The walk removes and changes nothing already in the tree. */
  lemma {:induction false} CreateWalkKeeps(fs: Tree, cwd: Key, faults: map<Key, nat>, ps: seq<Prefix>, i: nat)
    requires i <= |ps|
    ensures var w := CreateWalk(fs, cwd, faults, ps, i);
            forall k :: k in fs ==> k in w.fs && w.fs[k] == fs[k]
    decreases |ps| - i
  {
    if i < |ps| {
      var k := ps[i].key;
      if CreateWalk(fs, cwd, faults, ps, i).visits[0].Done() {
        CreateWalkGoesOn(fs, cwd, faults, ps, i);
        CreateWalkKeeps(Continued(fs, faults, ps[i]), k, faults, ps, i + 1);
      } else {
        CreateWalkStops(fs, cwd, faults, ps, i);
      }
    }
  }

  /** Every visit that made its prefix made one that was not in the tree, and
      it is a directory when the walk ends. */
  lemma {:induction false} CreateWalkMakesNew(fs: Tree, cwd: Key, faults: map<Key, nat>, ps: seq<Prefix>, i: nat)
    requires i <= |ps|
    ensures var w := CreateWalk(fs, cwd, faults, ps, i);
            forall j :: 0 <= j < |w.visits| && w.visits[j].Creates() ==>
              ps[i + j].key !in fs && IsDir(w.fs, ps[i + j].key)
    decreases |ps| - i
  {
    if i < |ps| {
      var k := ps[i].key;
      var w := CreateWalk(fs, cwd, faults, ps, i);
      if w.visits[0].Done() {
        CreateWalkGoesOn(fs, cwd, faults, ps, i);
        var grown := Continued(fs, faults, ps[i]);
        CreateWalkMakesNew(grown, k, faults, ps, i + 1);
        CreateWalkKeeps(grown, k, faults, ps, i + 1);
        var rest := CreateWalk(grown, k, faults, ps, i + 1);
        forall j | 0 <= j < |w.visits| && w.visits[j].Creates()
          ensures ps[i + j].key !in fs && IsDir(w.fs, ps[i + j].key)
        {
          if j > 0 {
            assert w.visits[j] == rest.visits[j - 1];
            assert i + 1 + (j - 1) == i + j;
          }
        }
      } else {
        CreateWalkStops(fs, cwd, faults, ps, i);
      }
    }
  }

  /** `q` is the key of a prefix one of the visits (the walk from the i-th
      prefix on) made. */
  predicate MadeBy(ps: seq<Prefix>, i: nat, vs: seq<Visit>, q: Key)
    requires i + |vs| <= |ps|
  {
    exists j :: 0 <= j < |vs| && vs[j].Creates() && q == ps[i + j].key
  }

  /** Everything the walk added is a directory made by one of its visits. */
  lemma {:induction false} CreateWalkAddsOnlyMade(fs: Tree, cwd: Key, faults: map<Key, nat>, ps: seq<Prefix>, i: nat)
    requires i <= |ps|
    ensures var w := CreateWalk(fs, cwd, faults, ps, i);
            forall q :: q in w.fs && q !in fs ==> w.fs[q] == Dir && MadeBy(ps, i, w.visits, q)
    decreases |ps| - i
  {
    if i < |ps| {
      var k := ps[i].key;
      var w := CreateWalk(fs, cwd, faults, ps, i);
      if w.visits[0].Done() {
        CreateWalkGoesOn(fs, cwd, faults, ps, i);
        var grown := Continued(fs, faults, ps[i]);
        CreateWalkAddsOnlyMade(grown, k, faults, ps, i + 1);
        CreateWalkKeeps(grown, k, faults, ps, i + 1);
        var rest := CreateWalk(grown, k, faults, ps, i + 1);
        forall q | q in w.fs && q !in fs
          ensures w.fs[q] == Dir && MadeBy(ps, i, w.visits, q)
        {
          if q in grown {
            MadeFirst(fs, cwd, faults, ps, i, q);
          } else {
            MadeLater(ps, i, w.visits[0], rest.visits, q);
          }
        }
      } else {
        CreateWalkStops(fs, cwd, faults, ps, i);
        if w.visits[0].Creates() {
          assert MadeBy(ps, i, w.visits, k) by {
            assert w.visits[0].Creates() && k == ps[i + 0].key;
          }
        }
      }
    }
  }

  lemma MadeFirst(fs: Tree, cwd: Key, faults: map<Key, nat>, ps: seq<Prefix>, i: nat, q: Key)
    requires i < |ps|
    requires CreateWalk(fs, cwd, faults, ps, i).visits[0].Done()
    requires q in Continued(fs, faults, ps[i]) && q !in fs
    ensures MadeBy(ps, i, CreateWalk(fs, cwd, faults, ps, i).visits, q)
  {
    var w := CreateWalk(fs, cwd, faults, ps, i);
    CreateWalkGoesOn(fs, cwd, faults, ps, i);
    assert w.visits[0].Creates() && q == ps[i + 0].key;
  }

  lemma MadeLater(ps: seq<Prefix>, i: nat, v: Visit, vs: seq<Visit>, q: Key)
    requires i + 1 + |vs| <= |ps|
    requires MadeBy(ps, i + 1, vs, q)
    ensures MadeBy(ps, i, [v] + vs, q)
  {
    var j :| 0 <= j < |vs| && vs[j].Creates() && q == ps[i + 1 + j].key;
    assert ([v] + vs)[j + 1] == vs[j];
    assert i + 1 + j == i + (j + 1);
  }

  /** A walk with no refusal leaves every prefix a directory the server does not
      refuse, and ends in the last one. */
  lemma {:induction false} CreateWalkSucceeds(fs: Tree, cwd: Key, faults: map<Key, nat>, ps: seq<Prefix>, i: nat)
    requires i <= |ps|
    requires AllDone(CreateWalk(fs, cwd, faults, ps, i).visits)
    ensures var w := CreateWalk(fs, cwd, faults, ps, i);
            && (forall n :: i <= n < |ps| ==> IsDir(w.fs, ps[n].key) && ps[n].key !in faults)
            && w.cwd == if i == |ps| then cwd else ps[|ps| - 1].key
    decreases |ps| - i
  {
    if i < |ps| {
      var k := ps[i].key;
      var w := CreateWalk(fs, cwd, faults, ps, i);
      assert w.visits[0].Done();
      CreateWalkGoesOn(fs, cwd, faults, ps, i);
      var grown := Continued(fs, faults, ps[i]);
      var rest := CreateWalk(grown, k, faults, ps, i + 1);
      assert AllDone(rest.visits) by {
        forall j | 0 <= j < |rest.visits| ensures rest.visits[j].Done() {
          assert rest.visits[j] == w.visits[j + 1];
        }
      }
      CreateWalkSucceeds(grown, k, faults, ps, i + 1);
      CreateWalkKeeps(grown, k, faults, ps, i + 1);
    }
  }

  /** When every prefix is already a directory the server does not refuse, the
      walk enters each one and changes nothing in the tree. */
  lemma {:induction false} CreateWalkOnExisting(fs: Tree, cwd: Key, faults: map<Key, nat>, ps: seq<Prefix>, i: nat)
    requires i <= |ps|
    requires forall n :: i <= n < |ps| ==> IsDir(fs, ps[n].key) && ps[n].key !in faults
    ensures var w := CreateWalk(fs, cwd, faults, ps, i);
            && w.fs == fs
            && w.cwd == (if i == |ps| then cwd else ps[|ps| - 1].key)
            && |w.visits| == |ps| - i
            && forall j :: 0 <= j < |w.visits| ==> w.visits[j] == Entered(ps[i + j].path)
    decreases |ps| - i
  {
    if i < |ps| {
      var k := ps[i].key;
      assert IsDir(fs, k) && k !in faults;
      CreateWalkOnExisting(fs, k, faults, ps, i + 1);
      var w := CreateWalk(fs, cwd, faults, ps, i);
      var rest := CreateWalk(fs, k, faults, ps, i + 1);
      forall j | 1 <= j < |w.visits| ensures w.visits[j] == Entered(ps[i + j].path) {
        assert w.visits[j] == rest.visits[j - 1];
        assert i + 1 + (j - 1) == i + j;
      }
    }
  }

  /** `createDirectories` is idempotent: after a walk with no refusal, the same
      walk again makes nothing, refuses nothing, and ends in the same state. */
  lemma CreateTwice(fs: Tree, cwd: Key, faults: map<Key, nat>, ps: seq<Prefix>)
    requires AllDone(CreateWalk(fs, cwd, faults, ps, 0).visits)
    ensures var first := CreateWalk(fs, cwd, faults, ps, 0);
            var second := CreateWalk(first.fs, first.cwd, faults, ps, 0);
            && second.fs == first.fs && second.cwd == first.cwd
            && AllDone(second.visits)
            && forall j :: 0 <= j < |second.visits| ==> second.visits[j].Entered?
  {
    var first := CreateWalk(fs, cwd, faults, ps, 0);
    CreateWalkSucceeds(fs, cwd, faults, ps, 0);
    CreateWalkOnExisting(first.fs, first.cwd, faults, ps, 0);
  }

  lemma VisitRequestsAppend(vs: seq<Visit>, v: Visit)
    ensures VisitRequests(vs + [v]) == VisitRequests(vs) + v.Requests()
  {
    assert (vs + [v])[..|vs|] == vs;
  }

  /** The log after a visit: what it was, then the visit's requests. */
  lemma LogAfterVisit(log0: seq<Request>, vs: seq<Visit>, before: seq<Request>, after: seq<Request>, v: Visit)
    requires before == log0 + VisitRequests(vs)
    requires after == before + v.Requests()
    ensures after == log0 + VisitRequests(vs + [v])
  {
    VisitRequestsAppend(vs, v);
    assert log0 + VisitRequests(vs) + v.Requests() == log0 + (VisitRequests(vs) + v.Requests());
  }

  /** The walk stands, between its visits, where the rest of it is the
      remainder of the whole walk. */
  predicate Resumes(whole: Walked, done: seq<Visit>, rest: Walked) {
    whole.fs == rest.fs && whole.cwd == rest.cwd && whole.visits == done + rest.visits
  }

  /** A visit to the next prefix either leaves the walk ready to resume from the
      prefix after it, or is the visit the whole walk ends with. */
  lemma Advance(whole: Walked, done: seq<Visit>, fs: Tree, cwd: Key, faults: map<Key, nat>, ps: seq<Prefix>, i: nat,
                v: Visit, fs2: Tree, cwd2: Key)
    requires i < |ps|
    requires Resumes(whole, done, CreateWalk(fs, cwd, faults, ps, i))
    requires v == VisitOf(fs, faults, ps[i]) && fs2 == Continued(fs, faults, ps[i])
    requires cwd2 == if v.Done() then ps[i].key else cwd
    ensures v.Done() ==> Resumes(whole, done + [v], CreateWalk(fs2, cwd2, faults, ps, i + 1))
    ensures !v.Done() ==> whole == Walked(fs2, cwd2, done + [v])
  {
  }

  /** The body of the `createDirectories` loop for one prefix: cd into it; on
      "no such file", mkdir it and cd into it again. */
  method VisitPrefix(ch: SftpChannel, path: string, ghost pre: Prefix) returns (v: Visit)
    requires ch.Valid() && pre.path == path && pre.key == Resolve(ch.cwd, path)
    modifies ch
    ensures ch.Valid() && ch.connected == old(ch.connected)
    ensures v == VisitOf(old(ch.fs), ch.faults, pre) && ch.log == old(ch.log) + v.Requests()
    ensures ch.fs == Continued(old(ch.fs), ch.faults, pre)
    ensures ch.cwd == if v.Done() then pre.key else old(ch.cwd)
  {
    var entered := ch.Cd(path);
    if entered.Pass? {
      return Entered(path);
    }
    if entered.error.id != SSH_FX_NO_SUCH_FILE {
      return EnterRefused(path, entered.error.id);
    }
    var made := ch.Mkdir(path);
    if made.Fail? {
      return MakeRefused(path, made.error.id);
    }
    var reentered := ch.Cd(path);
    if reentered.Fail? {
      return ReenterRefused(path, reentered.error.id);
    }
    v := Made(path);
  }

  /** Where the loop of `createDirectories` stands after reading j pieces of the
      path, i of them segments: the path built so far is the i-th accumulated
      prefix, the channel stands where the walk from the i-th prefix starts,
      and every visit so far went on. */
  ghost predicate Along(folders: seq<string>, segs: seq<string>, j: nat, i: nat, currentPath: string,
                        whole: Walked, done: seq<Visit>, log0: seq<Request>,
                        fs: Tree, cwd: Key, faults: map<Key, nat>, log: seq<Request>)
  {
    PiecesRead(folders, segs, j, i, currentPath) && Stage(segs, i, whole, done, log0, fs, cwd, faults, log)
  }

  ghost predicate Stage(segs: seq<string>, i: nat, whole: Walked, done: seq<Visit>, log0: seq<Request>,
                        fs: Tree, cwd: Key, faults: map<Key, nat>, log: seq<Request>)
  {
    && i <= |segs| && (forall t :: 0 <= t < |segs| ==> IsSegment(segs[t]))
    && Resumes(whole, done, CreateWalk(fs, cwd, faults, Prefixes(segs), i))
    && AllDone(done)
    && log == log0 + VisitRequests(done)
  }

  lemma AlongStart(folders: seq<string>, segs: seq<string>, fs: Tree, cwd: Key, faults: map<Key, nat>, log: seq<Request>)
    requires NonEmpty(folders) == segs && forall t :: 0 <= t < |segs| ==> IsSegment(segs[t])
    ensures Along(folders, segs, 0, 0, "", CreateWalk(fs, cwd, faults, Prefixes(segs), 0), [], log, fs, cwd, faults, log)
  {
    PiecesReadStart(folders, segs);
  }

  /** An empty piece changes nothing but the count of pieces read. */
  lemma AlongSkip(folders: seq<string>, segs: seq<string>, j: nat, i: nat, currentPath: string,
                  whole: Walked, done: seq<Visit>, log0: seq<Request>,
                  fs: Tree, cwd: Key, faults: map<Key, nat>, log: seq<Request>)
    requires Along(folders, segs, j, i, currentPath, whole, done, log0, fs, cwd, faults, log)
    requires j < |folders| && folders[j] == ""
    ensures Along(folders, segs, j + 1, i, currentPath, whole, done, log0, fs, cwd, faults, log)
  {
    PiecesReadSkip(folders, segs, j, i, currentPath);
  }

  /** What the visit of the next prefix does to the loop's state: after a visit
      that went on, the loop stands at the next piece; after a refused one, the
      walk is over, and the requests sent are all of it. */
  lemma StepEffect(folders: seq<string>, segs: seq<string>, j: nat, i: nat, prev: string, path: string,
                   whole: Walked, done: seq<Visit>, log0: seq<Request>,
                   fs: Tree, cwd: Key, faults: map<Key, nat>, log: seq<Request>,
                   v: Visit, fs2: Tree, cwd2: Key, log2: seq<Request>)
    requires j < |folders| && folders[j] != "" && path == prev + "/" + folders[j] && i < |segs|
    requires Along(folders, segs, j, i, prev, whole, done, log0, fs, cwd, faults, log)
    requires v == VisitOf(fs, faults, Prefixes(segs)[i]) && fs2 == Continued(fs, faults, Prefixes(segs)[i])
    requires cwd2 == (if v.Done() then Prefixes(segs)[i].key else cwd) && log2 == log + v.Requests()
    ensures v.Done() ==> Along(folders, segs, j + 1, i + 1, path, whole, done + [v], log0, fs2, cwd2, faults, log2)
    ensures !v.Done() ==> whole == Walked(fs2, cwd2, done + [v]) && log2 == log0 + VisitRequests(whole.visits)
  {
    PiecesReadNext(folders, segs, j, i, prev, path);
    Advance(whole, done, fs, cwd, faults, Prefixes(segs), i, v, fs2, cwd2);
    LogAfterVisit(log0, done, log, log2, v);
    if v.Done() {
      assert AllDone(done + [v]);
    }
  }

  /** One turn of the `createDirectories` loop on a non-empty piece: the walk
      either goes on past its prefix or ends with it. */
  method CreateStep(ch: SftpChannel, folders: seq<string>, j: nat, path: string, ghost prev: string,
                    ghost segs: seq<string>, ghost i: nat, ghost whole: Walked, ghost done: seq<Visit>,
                    ghost log0: seq<Request>) returns (visit: Visit)
    requires ch.Valid() && j < |folders| && folders[j] != "" && path == prev + "/" + folders[j]
    requires Along(folders, segs, j, i, prev, whole, done, log0, ch.fs, ch.cwd, ch.faults, ch.log)
    modifies ch
    ensures ch.Valid() && ch.connected == old(ch.connected) && visit.path == path
    ensures visit.Done() ==>
              Along(folders, segs, j + 1, i + 1, path, whole, done + [visit], log0, ch.fs, ch.cwd, ch.faults, ch.log)
    ensures !visit.Done() ==>
              && whole == Walked(ch.fs, ch.cwd, done + [visit])
              && ch.log == log0 + VisitRequests(whole.visits)
  {
    PiecesReadNext(folders, segs, j, i, prev, path);
    PrefixAt(ch.cwd, segs, i);
    ghost var fs1, cwd1, before := ch.fs, ch.cwd, ch.log;
    visit := VisitPrefix(ch, path, Prefixes(segs)[i]);
    StepEffect(folders, segs, j, i, prev, path, whole, done, log0, fs1, cwd1, ch.faults, before,
               visit, ch.fs, ch.cwd, ch.log);
  }

  /** A walk that ends with a refusal lets that refusal's code escape. */
  lemma StoppedOutcome(done: seq<Visit>, visit: Visit)
    requires !visit.Done()
    ensures Escaped(done + [visit]) == Some(visit.code)
  {
  }

  /** Once the loop of `createDirectories` has read every piece, the walk has
      nothing left: what it did so far is the whole walk, and it went through. */
  lemma CreateFinished(folders: seq<string>, segs: seq<string>, i: nat, currentPath: string,
                       whole: Walked, done: seq<Visit>, log0: seq<Request>,
                       fs: Tree, cwd: Key, faults: map<Key, nat>, log: seq<Request>)
    requires Along(folders, segs, |folders|, i, currentPath, whole, done, log0, fs, cwd, faults, log)
    ensures whole == Walked(fs, cwd, done) && log == log0 + VisitRequests(whole.visits)
    ensures Escaped(whole.visits) == None
  {
    PiecesReadAll(folders, segs, i, currentPath);
  }

  /** `createDirectories` once it holds the channel: splits `remotePath`, walks
      its pieces, and wraps a refusal that escapes the walk with the whole
      requested path. */
  method CreateAlong(ch: SftpChannel, remotePath: string) returns (r: Outcome)
    requires ch.Valid() && ch.connected
    modifies ch
    ensures ch.Valid() && ch.connected
    ensures var w := CreateWalk(old(ch.fs), old(ch.cwd), ch.faults, Prefixes(Segments(remotePath)), 0);
            && ch.fs == w.fs && ch.cwd == w.cwd
            && ch.log == old(ch.log) + VisitRequests(w.visits)
            && r == CreateOutcome(remotePath, w.visits)
  {
    var folders := Split(remotePath);
    ghost var segs := Segments(remotePath);
    SplitThenSkipEmpty(remotePath);
    ghost var whole := CreateWalk(ch.fs, ch.cwd, ch.faults, Prefixes(segs), 0);
    AlongStart(folders, segs, ch.fs, ch.cwd, ch.faults, ch.log);
    var refused := CreateLoop(ch, folders, segs, whole, ch.log);
    if refused.Some? {
      return Fail(SftpError(CreateMessage + remotePath, Some(SftpStatus(refused.value))));
    }
    r := Pass;
  }

  /** The body of the `createDirectories` loop for the j-th piece: an empty
      piece is skipped; any other extends the path and visits that prefix. A
      refusal ends the walk, and its code is the one that escapes. */
  method CreatePiece(ch: SftpChannel, folders: seq<string>, j: nat, currentPath: string, ghost segs: seq<string>,
                     ghost i: nat, ghost whole: Walked, ghost done: seq<Visit>, ghost log0: seq<Request>)
    returns (path: string, refused: Option<nat>, ghost i2: nat, ghost done2: seq<Visit>)
    requires ch.Valid() && j < |folders|
    requires Along(folders, segs, j, i, currentPath, whole, done, log0, ch.fs, ch.cwd, ch.faults, ch.log)
    modifies ch
    ensures ch.Valid() && ch.connected == old(ch.connected)
    ensures refused.None? ==>
              Along(folders, segs, j + 1, i2, path, whole, done2, log0, ch.fs, ch.cwd, ch.faults, ch.log)
    ensures refused.Some? ==>
              && ch.fs == whole.fs && ch.cwd == whole.cwd
              && ch.log == log0 + VisitRequests(whole.visits) && refused == Escaped(whole.visits)
  {
    if folders[j] == "" {
      AlongSkip(folders, segs, j, i, currentPath, whole, done, log0, ch.fs, ch.cwd, ch.faults, ch.log);
      return currentPath, None, i, done;
    }
    path := currentPath + "/" + folders[j];
    var visit := CreateStep(ch, folders, j, path, currentPath, segs, i, whole, done, log0);
    if !visit.Done() {
      StoppedOutcome(done, visit);
      return path, Some(visit.code), i, done;
    }
    refused, i2, done2 := None, i + 1, done + [visit];
  }

  /** The loop of `createDirectories`: reads the pieces in order, skips the
      empty ones and visits the prefix each other one ends, stopping at the
      first refusal, whose code escapes; what it does is the whole walk
      `whole`. */
  method CreateLoop(ch: SftpChannel, folders: seq<string>, ghost segs: seq<string>,
                    ghost whole: Walked, ghost log0: seq<Request>) returns (refused: Option<nat>)
    requires ch.Valid() && ch.connected
    requires Along(folders, segs, 0, 0, "", whole, [], log0, ch.fs, ch.cwd, ch.faults, ch.log)
    modifies ch
    ensures ch.Valid() && ch.connected && ch.fs == whole.fs && ch.cwd == whole.cwd
    ensures ch.log == log0 + VisitRequests(whole.visits) && refused == Escaped(whole.visits)
  {
    ghost var done: seq<Visit> := [];
    ghost var i := 0;
    var currentPath := "";
    var j := 0;
    while j < |folders|
      invariant ch.Valid() && ch.connected
      invariant Along(folders, segs, j, i, currentPath, whole, done, log0, ch.fs, ch.cwd, ch.faults, ch.log)
      decreases |folders| - j
    {
      currentPath, refused, i, done := CreatePiece(ch, folders, j, currentPath, segs, i, whole, done, log0);
      if refused.Some? {
        return;
      }
      j := j + 1;
    }
    CreateFinished(folders, segs, i, currentPath, whole, done, log0, ch.fs, ch.cwd, ch.faults, ch.log);
    refused := None;
  }

  /** A walk that reports nothing, and can be refused only at its end, was
      refused nowhere. */
  lemma PassedAllDone(remotePath: string, vs: seq<Visit>)
    requires forall j :: 0 <= j < |vs| - 1 ==> vs[j].Done()
    requires CreateOutcome(remotePath, vs) == Pass
    ensures AllDone(vs)
  {
  }

  /** After `createDirectories` of an absolute path with at least one segment
      went through, `exists` on the same path finds it, wherever the walk left
      the working directory. */
  lemma CreatedThenExists(fs: Tree, cwd: Key, faults: map<Key, nat>, remotePath: string)
    requires ProperKey(cwd) && IsAbsolute(remotePath) && Segments(remotePath) != []
    requires CreateOutcome(remotePath, CreateWalk(fs, cwd, faults, Prefixes(Segments(remotePath)), 0).visits) == Pass
    ensures var w := CreateWalk(fs, cwd, faults, Prefixes(Segments(remotePath)), 0);
            ProperKey(w.cwd) && Access(w.fs, faults, Resolve(w.cwd, remotePath)).None?
  {
    var ps := Prefixes(Segments(remotePath));
    var w := CreateWalk(fs, cwd, faults, ps, 0);
    CreateWalkStopsLast(fs, cwd, faults, ps, 0);
    PassedAllDone(remotePath, w.visits);
    CreateWalkSucceeds(fs, cwd, faults, ps, 0);
    LastPrefix(cwd, remotePath);
    LastPrefix(w.cwd, remotePath);
  }

  /** `p` names an entry of the directory `dir`: `dir + "/"` followed by a name. */
  predicate EntryOf(p: string, dir: string) {
    && |dir| + 1 < |p| && p[..|dir| + 1] == dir + "/"
    && IsName(p[|dir| + 1..])
  }

  lemma EntryOfChild(dir: string, name: string)
    requires IsName(name)
    ensures EntryOf(dir + "/" + name, dir)
  {
    var p := dir + "/" + name;
    assert p[..|dir| + 1] == dir + "/";
    assert p[|dir| + 1..] == name;
  }

  /** A request `deleteDirectory(dir)` sends itself, rather than through a
      recursive call: the listing of `dir`, the removal of a file listed in it,
      or the removal of `dir`. */
  predicate OwnRequest(q: Request, dir: string) {
    || q == List(dir) || q == RemoveDir(dir)
    || (q.RemoveFile? && EntryOf(q.path, dir))
  }

  /** The failure `deleteDirectory(dir)` raises when the server refused the
      request `q` with `code`: its own wrapper, naming `dir`, around the cause. */
  predicate DeleteFailure(e: Failure, dir: string, q: Request, code: nat)
    decreases e, 1
  {
    && e.SftpError? && e.message == DeleteMessage + dir
    && e.wrapped.Some? && DeleteCause(e.wrapped.value, dir, q, code)
  }

  /** The cause inside that wrapper: the refusal itself, with its code, when
      `dir`'s own deletion sent `q`; otherwise the failure of the recursive call
      on the entry of `dir` below which `q` was sent. So there is one wrapper
      per directory from `dir` down to the one that sent `q`. */
  predicate DeleteCause(c: Failure, dir: string, q: Request, code: nat)
    decreases c, 2
  {
    if c.SftpStatus? then c.id == code && OwnRequest(q, dir)
    else
      && c.SftpError? && DeleteMessage <= c.message
      && EntryOf(c.message[|DeleteMessage|..], dir)
      && DeleteFailure(c, c.message[|DeleteMessage|..], q, code)
  }

  /** A delete of `dir` that failed with `e` stopped at the request it sent
      last: the server refuses it (from `cwd`, on the tree `fs` it left), and
      `e` is the delete failure that request's refusal raises. */
  predicate RefusedLast(e: Failure, dir: string, fs: Tree, faults: map<Key, nat>, cwd: Key,
                        log0: seq<Request>, log: seq<Request>)
    requires ProperKey(cwd)
  {
    && |log0| < |log|
    && var q := log[|log| - 1];
       && Refusal(q, fs, faults, cwd).Some?
       && DeleteFailure(e, dir, q, Refusal(q, fs, faults, cwd).value)
  }

  /** The same for the cause inside the wrapper naming `dir`, as the loop over
      the entries of `dir` returns it. */
  predicate CauseRefusedLast(c: Failure, dir: string, fs: Tree, faults: map<Key, nat>, cwd: Key,
                             log0: seq<Request>, log: seq<Request>)
    requires ProperKey(cwd)
  {
    && |log0| < |log|
    && var q := log[|log| - 1];
       && Refusal(q, fs, faults, cwd).Some?
       && DeleteCause(c, dir, q, Refusal(q, fs, faults, cwd).value)
  }

  /** Where the loop over the entries of `remoteDir` (the path of `k`) stands
      when it stopped with the cause `c`: at the refused request it sent last,
      having left what `Abandoned` describes. */
  ghost predicate StoppedAt(c: Failure, remoteDir: string, k: Key, faults: map<Key, nat>, cwd: Key,
                            fs0: Tree, log0: seq<Request>, fs: Tree, log: seq<Request>)
  {
    && ProperKey(cwd)
    && CauseRefusedLast(c, remoteDir, fs, faults, cwd, log0, log)
    && Abandoned(remoteDir, k, faults.Keys, fs0, log0, fs, log)
  }

  lemma WrapCause(c: Failure, dir: string, fs: Tree, faults: map<Key, nat>, cwd: Key,
                  log0: seq<Request>, log: seq<Request>)
    requires ProperKey(cwd) && CauseRefusedLast(c, dir, fs, faults, cwd, log0, log)
    ensures RefusedLast(SftpError(DeleteMessage + dir, Some(c)), dir, fs, faults, cwd, log0, log)
  {
  }

  /** The failure of the recursive call on an entry is a cause for its parent. */
  lemma ChildCause(c: Failure, dir: string, name: string, fs: Tree, faults: map<Key, nat>, cwd: Key,
                   log0: seq<Request>, log: seq<Request>)
    requires ProperKey(cwd) && IsName(name)
    requires RefusedLast(c, dir + "/" + name, fs, faults, cwd, log0, log)
    ensures CauseRefusedLast(c, dir, fs, faults, cwd, log0, log)
  {
    var child := dir + "/" + name;
    assert (DeleteMessage + child)[|DeleteMessage|..] == child;
    EntryOfChild(dir, name);
  }

  /** A file the server refuses to `rm` ends the entry's deletion with the
      refusal's code, as a cause for the directory that lists it. */
  lemma RmRefusedCause(dir: string, name: string, fs: Tree, faults: map<Key, nat>, cwd: Key, log0: seq<Request>)
    requires ProperKey(cwd) && IsName(name)
    requires RmRefusal(fs, faults, Resolve(cwd, dir + "/" + name)).Some?
    ensures CauseRefusedLast(SftpStatus(RmRefusal(fs, faults, Resolve(cwd, dir + "/" + name)).value), dir,
                             fs, faults, cwd, log0, log0 + [RemoveFile(dir + "/" + name)])
  {
    EntryOfChild(dir, name);
  }

  /** A listing the server refuses ends the delete with nothing removed; the
      failure names `remoteDir` around the refusal's code. */
  lemma ListRefusedEffect(remoteDir: string, cwd: Key, faults: map<Key, nat>, fs0: Tree, log0: seq<Request>)
    requires ProperKey(cwd) && Access(fs0, faults, Resolve(cwd, remoteDir)).Some?
    ensures var log := log0 + [List(remoteDir)];
            var e := SftpError(DeleteMessage + remoteDir, Some(SftpStatus(Access(fs0, faults, Resolve(cwd, remoteDir)).value)));
            && Deleted(remoteDir, Resolve(cwd, remoteDir), faults.Keys, fs0, log0, fs0, log, false)
            && RefusedLast(e, remoteDir, fs0, faults, cwd, log0, log)
  {
    var log := log0 + [List(remoteDir)];
    assert log[|log0|..] == [List(remoteDir)];
    StoppedAtOnce(remoteDir, Resolve(cwd, remoteDir), faults.Keys, fs0, log0, log);
  }

  /** Once every entry is gone, the final `rmdir` decides the outcome. */
  lemma RmdirEffect(remoteDir: string, cwd: Key, files: seq<Entry>, faults: map<Key, nat>,
                    fs0: Tree, log0: seq<Request>, fs: Tree, log: seq<Request>)
    requires ProperKey(cwd)
    requires ListingOf(fs0, Resolve(cwd, remoteDir), DotEntries, files)
    requires Clearing(remoteDir, Resolve(cwd, remoteDir), files, |files|, fs0, log0, fs, log)
    ensures var k := Resolve(cwd, remoteDir);
            var refusal := RmdirRefusal(fs, faults, k);
            var log2 := log + [RemoveDir(remoteDir)];
            && (refusal.None? ==> Deleted(remoteDir, k, faults.Keys, fs0, log0, fs - {k}, log2, true))
            && (refusal.Some? ==>
                  && Deleted(remoteDir, k, faults.Keys, fs0, log0, fs, log2, false)
                  && RefusedLast(SftpError(DeleteMessage + remoteDir, Some(SftpStatus(refusal.value))), remoteDir,
                                 fs, faults, cwd, log0, log2))
  {
    var k := Resolve(cwd, remoteDir);
    var refusal := RmdirRefusal(fs, faults, k);
    RemovedLast(remoteDir, k, faults.Keys, DotEntries, files, fs0, log0, fs, log, refusal.None?);
  }

  class SftpFileTransfer {
    const connection: JschSftpConnection

    constructor(connection: JschSftpConnection)
      ensures this.connection == connection
    {
      this.connection := connection;
    }

    /** The constructor: connects first, and exists only when that succeeded. */
    static method Open(connection: JschSftpConnection, server: Server, failAt: Option<Stage>)
      returns (r: Result<SftpFileTransfer>)
      requires connection.Valid() && server.Valid()
      modifies connection
      ensures connection.Valid()
      ensures r.Ok? <==> failAt.None?
      ensures r.Err? ==> r.error == SftpError(ConnectFailedMessage, Some(JschFailure))
      ensures r.Ok? ==> fresh(r.value) && r.value.connection == connection && connection.Live()
    {
      var connected := connection.Connect(server, failAt);
      if connected.Fail? {
        return Err(connected.error);
      }
      var transfer := new SftpFileTransfer(connection);
      r := Ok(transfer);
    }

    /** Creates every directory along `remotePath`, one accumulated prefix at a
        time, as `CreateWalk` describes; the channel is taken before anything
        else, and its refusal is not wrapped. */
    method CreateDirectories(remotePath: string) returns (r: Outcome)
      requires connection.Valid()
      modifies connection.channelSftp
      ensures connection.Valid()
      ensures !old(connection.Live()) ==>
                && r == Fail(SftpError(NotConnectedMessage, None))
                && (connection.channelSftp != null ==> unchanged(connection.channelSftp))
      ensures old(connection.Live()) ==>
                var ch := connection.channelSftp;
                var w := CreateWalk(old(ch.fs), old(ch.cwd), ch.faults, Prefixes(Segments(remotePath)), 0);
                && ch.connected && ch.fs == w.fs && ch.cwd == w.cwd
                && ch.log == old(ch.log) + VisitRequests(w.visits)
                && r == CreateOutcome(remotePath, w.visits)
    {
      var got := connection.GetChannel();
      if got.Err? {
        return Fail(got.error);
      }
      r := CreateAlong(got.value, remotePath);
    }

    /** How much is left for `deleteDirectory(remoteDir)` to remove: the size of
        the subtree the path names. */
    ghost function DeleteMeasure(remoteDir: string): nat
      reads connection, connection.channelSftp
    {
      var ch := connection.channelSftp;
      if ch == null || !ProperKey(ch.cwd) then 0 else |Subtree(ch.fs, Resolve(ch.cwd, remoteDir))|
    }

    /** Deletes `remoteDir` depth first: lists it, removes each entry (files with
        `rm`, directories by a recursive call) and then the directory itself.
        The channel is taken before anything else and its refusal is not
        wrapped; any later failure is wrapped with `remoteDir`. */
    method DeleteDirectory(remoteDir: string) returns (r: Outcome)
      requires connection.Valid()
      modifies connection.channelSftp
      decreases if remoteDir == "" then 1 else 0, DeleteMeasure(remoteDir), 3
      ensures connection.Valid()
      ensures !old(connection.Live()) ==>
                && r == Fail(SftpError(NotConnectedMessage, None))
                && (connection.channelSftp != null ==> unchanged(connection.channelSftp))
      ensures old(connection.Live()) ==>
                var ch := connection.channelSftp;
                && ch.connected && ch.cwd == old(ch.cwd)
                && Deleted(remoteDir, Resolve(ch.cwd, remoteDir), ch.faults.Keys,
                           old(ch.fs), old(ch.log), ch.fs, ch.log, r.Pass?)
                && (r.Fail? ==> RefusedLast(r.error, remoteDir, ch.fs, ch.faults, ch.cwd, old(ch.log), ch.log))
    {
      var got := connection.GetChannel();
      if got.Err? {
        return Fail(got.error);
      }
      var ch := got.value;
      ghost var fs0, log0, bound := ch.fs, ch.log, DeleteMeasure(remoteDir);
      ghost var k := Resolve(ch.cwd, remoteDir);
      var listing := ch.Ls(remoteDir);
      if listing.Err? {
        r := Fail(SftpError(DeleteMessage + remoteDir, Some(listing.error)));
        ListRefusedEffect(remoteDir, ch.cwd, ch.faults, fs0, log0);
        return;
      }
      var files := listing.value;
      assert ListingOf(fs0, k, DotEntries, files);
      assert ch.log[|log0|..] == [List(remoteDir)];
      var sub := ClearEntries(remoteDir, files, fs0, log0, k, bound);
      if sub.Fail? {
        r := Fail(SftpError(DeleteMessage + remoteDir, Some(sub.error)));
        WrapCause(sub.error, remoteDir, ch.fs, ch.faults, ch.cwd, log0, ch.log);
        StoppedAtEntry(remoteDir, k, ch.faults.Keys, fs0, log0, ch.fs, ch.log);
        return;
      }
      RmdirEffect(remoteDir, ch.cwd, files, ch.faults, fs0, log0, ch.fs, ch.log);
      var removed := ch.Rmdir(remoteDir);
      if removed.Fail? {
        r := Fail(SftpError(DeleteMessage + remoteDir, Some(removed.error)));
      } else {
        r := Pass;
      }
    }

    /** The loop of `deleteDirectory` over the listing `files` of `remoteDir`,
        skipping "." and "..": it stops at the first entry that fails and
        returns that failure. */
    method ClearEntries(remoteDir: string, files: seq<Entry>, ghost fs0: Tree, ghost log0: seq<Request>,
                        ghost k: Key, ghost bound: nat) returns (sub: Outcome)
      requires connection.Valid() && connection.Live()
      requires var ch := connection.channelSftp;
               && ch.fs == fs0 && log0 <= ch.log && RequestsUnder(ch.log[|log0|..], remoteDir)
               && k == Resolve(ch.cwd, remoteDir)
               && ListingOf(fs0, k, DotEntries, files)
               && (remoteDir != "" ==> bound == |Subtree(fs0, k)|)
      modifies connection.channelSftp
      decreases if remoteDir == "" then 1 else 0, bound, 2
      ensures connection.Valid() && connection.Live()
      ensures var ch := connection.channelSftp;
              && ch.cwd == old(ch.cwd)
              && (sub.Pass? ==> Clearing(remoteDir, k, files, |files|, fs0, log0, ch.fs, ch.log))
              && (sub.Fail? ==> StoppedAt(sub.error, remoteDir, k, ch.faults, ch.cwd, fs0, log0, ch.fs, ch.log))
    {
      var ch := connection.channelSftp;
      ghost var cwd0 := ch.cwd;
      ClearingStart(remoteDir, k, files, fs0, log0, ch.log);
      var e := 0;
      while e < |files|
        invariant connection.channelSftp == ch && ch.Valid() && ch.connected && ch.cwd == cwd0
        invariant Clearing(remoteDir, k, files, e, fs0, log0, ch.fs, ch.log)
        decreases |files| - e
      {
        var filename := files[e].name;
        if filename == "." || filename == ".." {
          ClearingSkip(remoteDir, k, files, e, fs0, log0, ch.fs, ch.log);
        } else {
          sub := ClearEntry(remoteDir, files, e, fs0, log0, k, bound);
          if sub.Fail? {
            return;
          }
        }
        e := e + 1;
      }
      sub := Pass;
    }

    /** One turn of the loop of `deleteDirectory`, on an entry other than "."
        and "..": the entry is deleted, or its failure is returned. */
    method ClearEntry(remoteDir: string, files: seq<Entry>, e: nat, ghost fs0: Tree, ghost log0: seq<Request>,
                      ghost k: Key, ghost bound: nat) returns (sub: Outcome)
      requires connection.Valid() && connection.Live() && e < |files| && !IsDotName(files[e].name)
      requires var ch := connection.channelSftp;
               && k == Resolve(ch.cwd, remoteDir) && ListingOf(fs0, k, DotEntries, files)
               && (remoteDir != "" ==> bound == |Subtree(fs0, k)|)
               && Clearing(remoteDir, k, files, e, fs0, log0, ch.fs, ch.log)
      modifies connection.channelSftp
      decreases if remoteDir == "" then 1 else 0, bound, 1
      ensures connection.Valid() && connection.Live()
      ensures var ch := connection.channelSftp;
              && ch.cwd == old(ch.cwd)
              && (sub.Pass? ==> Clearing(remoteDir, k, files, e + 1, fs0, log0, ch.fs, ch.log))
              && (sub.Fail? ==> StoppedAt(sub.error, remoteDir, k, ch.faults, ch.cwd, fs0, log0, ch.fs, ch.log))
    {
      var ch := connection.channelSftp;
      ListingEntry(fs0, k, DotEntries, files, e);
      if remoteDir != "" {
        HealthyEntry(remoteDir, k, DotEntries, files, e, fs0, log0, ch.fs, ch.log, ch.faults.Keys);
      }
      ghost var fs1, log1 := ch.fs, ch.log;
      sub := DeleteEntry(remoteDir, files[e], fs0, bound);
      if sub.Fail? {
        Handled(remoteDir, k, files, e, fs0, log0, fs1, log1, ch.fs, ch.log);
        return;
      }
      ClearingStep(remoteDir, k, files, e, fs0, log0, fs1, log1, ch.fs, ch.log);
    }

    /** One entry of the listing of `remoteDir`: a directory is deleted by the
        recursive call, anything else by `rm`; the failure is left for the caller
        to wrap. */
    method DeleteEntry(remoteDir: string, entry: Entry, ghost fs0: Tree, ghost bound: nat) returns (r: Outcome)
      requires connection.Valid() && connection.Live() && IsName(entry.name)
      requires var ch := connection.channelSftp;
               remoteDir != "" ==>
                 && Resolve(ch.cwd, remoteDir) in ch.fs && Shrunk(ch.fs, fs0)
                 && bound == |Subtree(fs0, Resolve(ch.cwd, remoteDir))|
      modifies connection.channelSftp
      decreases if remoteDir == "" then 1 else 0, bound, 0
      ensures connection.Valid() && connection.Live()
      ensures var ch := connection.channelSftp;
              var c := Resolve(ch.cwd, remoteDir) + [entry.name];
              && ch.cwd == old(ch.cwd)
              && Shrunk(ch.fs, old(ch.fs))
              && (remoteDir != "" ==> KeptOutside(ch.fs, old(ch.fs), c))
              && (remoteDir != "" && r.Pass? ==> Cleared(ch.fs, c))
              && (r.Fail? ==> CauseRefusedLast(r.error, remoteDir, ch.fs, ch.faults, ch.cwd, old(ch.log), ch.log))
              && (remoteDir != "" && Sound(old(ch.fs), ch.faults.Keys, c, entry.isDir) ==> r.Pass?)
              && old(ch.log) <= ch.log && RequestsUnder(ch.log[|old(ch.log)|..], remoteDir + "/" + entry.name)
    {
      var ch := connection.channelSftp;
      var fullPath := remoteDir + "/" + entry.name;
      ghost var fs1 := ch.fs;
      if remoteDir != "" {
        ResolveChild(ch.cwd, remoteDir, entry.name);
      }
      if entry.isDir {
        if remoteDir != "" {
          SubtreeShrinks(fs0, ch.fs, Resolve(ch.cwd, remoteDir), Resolve(ch.cwd, fullPath));
        }
        r := DeleteDirectory(fullPath);
        if r.Fail? {
          ChildCause(r.error, remoteDir, entry.name, ch.fs, ch.faults, ch.cwd, old(ch.log), ch.log);
        }
      } else {
        ghost var c := Resolve(ch.cwd, fullPath);
        if remoteDir != "" {
          assert Sound(fs1, ch.faults.Keys, c, false) ==> c !in ch.faults;
        }
        r := ch.Rm(fullPath);
        if r.Pass? {
          RemovedFileCleared(fs1, c);
        } else {
          RmRefusedCause(remoteDir, entry.name, ch.fs, ch.faults, ch.cwd, old(ch.log));
        }
      }
    }

    /** Whether `remotePath` names anything: `lstat` answers, or refuses with
        "no such file". Any other refusal is raised as it is, and so is the
        channel's. */
    method Exists(remotePath: string) returns (r: Result<bool>)
      requires connection.Valid()
      ensures !connection.Live() ==> r == Err(SftpError(NotConnectedMessage, None))
      ensures connection.Live() ==>
                var ch := connection.channelSftp;
                var k := Resolve(ch.cwd, remotePath);
                var refusal := Access(ch.fs, ch.faults, k);
                && (r == Ok(true) <==> refusal.None?)
                && (r == Ok(false) <==> refusal == Some(SSH_FX_NO_SUCH_FILE))
                && (r.Err? <==> refusal.Some? && refusal.value != SSH_FX_NO_SUCH_FILE)
                && (r.Err? ==> r.error == SftpStatus(refusal.value))
                && (k !in ch.faults ==> r == Ok(k in ch.fs))
    {
      var got := connection.GetChannel();
      if got.Err? {
        return Err(got.error);
      }
      var attrs := got.value.Lstat(remotePath);
      if attrs.Ok? {
        return Ok(true);
      }
      if attrs.error.id == SSH_FX_NO_SUCH_FILE {
        return Ok(false);
      }
      r := Err(attrs.error);
    }

    /** The names `ls` reports for `remoteDir`, in its order: ".", ".." and each
        entry of a directory once, or the name of a file. The channel's refusal
        is wrapped with the listing message; the server's is wrapped in a
        RuntimeException. */
    method ListFiles(remoteDir: string) returns (r: Result<seq<string>>)
      requires connection.Valid()
      modifies connection.channelSftp
      ensures connection.Valid()
      ensures !old(connection.Live()) ==>
                && r == Err(SftpError(ListMessage, Some(SftpError(NotConnectedMessage, None))))
                && (connection.channelSftp != null ==> unchanged(connection.channelSftp))
      ensures old(connection.Live()) ==>
                var ch := connection.channelSftp;
                && ch.connected && ch.fs == old(ch.fs) && ch.cwd == old(ch.cwd)
                && ch.log == old(ch.log) + [List(remoteDir)]
      ensures old(connection.Live()) ==>
                var ch := connection.channelSftp;
                var k := Resolve(ch.cwd, remoteDir);
                var refusal := Access(ch.fs, ch.faults, k);
                && (r.Err? <==> refusal.Some?)
                && (r.Err? ==> r.error == Runtime(SftpStatus(refusal.value)))
                && (r.Ok? && ch.fs[k] == File ==> k != [] && r.value == [k[|k| - 1]])
                && (r.Ok? && ch.fs[k] == Dir ==>
                      |r.value| >= 2 && r.value[..2] == [".", ".."] && ListsNames(ch.fs, k, r.value[2..]))
    {
      var got := connection.GetChannel();
      if got.Err? {
        return Err(SftpError(ListMessage, Some(got.error)));
      }
      var entries := got.value.Ls(remoteDir);
      if entries.Err? {
        return Err(Runtime(entries.error));
      }
      var es := entries.value;
      r := Ok(Names(es));
      if |es| >= 2 {
        NamesSplit(es, 2);
      }
    }

    /** Deleting a single file is left empty in this class: the call does
        nothing and never fails. */
    method Delete(remotePath: string) returns (r: Outcome)
      ensures r == Pass
    {
      r := Pass;
    }

    /** Hands the call to the connection: the channel, then the session, is
        closed, and the channel is not handed out any more. */
    method Disconnect()
      requires connection.Valid()
      modifies connection, connection.channelSftp, connection.session
      ensures connection.Valid() && !connection.Live()
      ensures connection.channelSftp == old(connection.channelSftp)
      ensures connection.channelSftp != null ==>
                && connection.channelSftp.fs == old(connection.channelSftp.fs)
                && connection.channelSftp.cwd == old(connection.channelSftp.cwd)
    {
      connection.Disconnect();
    }
  }
}
