/** The part of the JSch library the SFTP classes call: an SSH session and an
    SFTP channel over it. The channel carries the remote tree it works on, the
    remote working directory, and the paths whose existing entries the server
    refuses to touch (with the status code it answers), as an access rule on the
    path itself would: a missing path is missing first, and a new directory is
    allowed or refused by its parent. The contracts say which status
    code the server answers; status codes are those of section 7 of the SSH File
    Transfer Protocol draft (draft-ietf-secsh-filexfer-02). */
module Jsch {
  import opened Paths
  import opened Remote
  import opened Failures

  const SSH_FX_NO_SUCH_FILE: nat := 2
  const SSH_FX_FAILURE: nat := 4

  /** The file attributes `lstat` reports; only the directory bit is modelled. */
  datatype Attrs = Attrs(isDir: bool)

  /** The code the server refuses a request on `k` with because of a missing
      entry or a fault, if any. */
  function Access(fs: Tree, faults: map<Key, nat>, k: Key): Option<nat> {
    if k !in fs then Some(SSH_FX_NO_SUCH_FILE)
    else if k in faults then Some(faults[k])
    else None
  }

  function CdRefusal(fs: Tree, faults: map<Key, nat>, k: Key): Option<nat> {
    if Access(fs, faults, k).Some? then Access(fs, faults, k)
    else if fs[k] == File then Some(SSH_FX_FAILURE)
    else None
  }

  /** `mkdir` is a request on the parent: it needs a parent directory the
      server does not refuse, and a name not yet taken. */
  function MkdirRefusal(fs: Tree, faults: map<Key, nat>, k: Key): Option<nat> {
    if k in fs || k == [] then Some(SSH_FX_FAILURE)
    else if Access(fs, faults, k[..|k| - 1]).Some? then Access(fs, faults, k[..|k| - 1])
    else if fs[k[..|k| - 1]] == File then Some(SSH_FX_FAILURE)
    else None
  }

  function RmRefusal(fs: Tree, faults: map<Key, nat>, k: Key): Option<nat> {
    if Access(fs, faults, k).Some? then Access(fs, faults, k)
    else if fs[k] == Dir then Some(SSH_FX_FAILURE)
    else None
  }

  function RmdirRefusal(fs: Tree, faults: map<Key, nat>, k: Key): Option<nat> {
    if Access(fs, faults, k).Some? then Access(fs, faults, k)
    else if fs[k] == File || k == [] || Descendants(fs, k) != {} then Some(SSH_FX_FAILURE)
    else None
  }

  /** The code the server refuses the request `q`, sent from `cwd`, with, if any. */
  function Refusal(q: Request, fs: Tree, faults: map<Key, nat>, cwd: Key): Option<nat>
    requires ProperKey(cwd)
  {
    var k := Resolve(cwd, q.path);
    match q
    case Enter(_) => CdRefusal(fs, faults, k)
    case MakeDir(_) => MkdirRefusal(fs, faults, k)
    case List(_) => Access(fs, faults, k)
    case RemoveFile(_) => RmRefusal(fs, faults, k)
    case RemoveDir(_) => RmdirRefusal(fs, faults, k)
  }

  /** A refusal raises a com.jcraft.jsch.SftpException carrying its code. */
  function Reply(refusal: Option<nat>): (r: Outcome)
    ensures r.Pass? <==> refusal.None?
    ensures refusal.Some? ==> r == Fail(SftpStatus(refusal.value))
  {
    match refusal
    case None => Pass
    case Some(code) => Fail(SftpStatus(code))
  }

  /** An SSH session (com.jcraft.jsch.Session). */
  class Session {
    var connected: bool

    constructor()
      ensures !connected
    {
      connected := false;
    }

    method Connect()
      modifies this
      ensures connected
    {
      connected := true;
    }

    method Disconnect()
      modifies this
      ensures !connected
    {
      connected := false;
    }
  }

  /** An SFTP channel (com.jcraft.jsch.ChannelSftp). */
  class SftpChannel {
    var fs: Tree
    var cwd: Key
    const faults: map<Key, nat>
    var connected: bool
    ghost var log: seq<Request>

    ghost predicate Valid()
      reads this
    {
      WellFormed(fs) && ProperKey(cwd)
    }

    constructor(fs: Tree, home: Key, faults: map<Key, nat>)
      requires WellFormed(fs) && ProperKey(home)
      ensures Valid() && !connected && log == []
      ensures this.fs == fs && cwd == home && this.faults == faults
    {
      this.fs := fs;
      this.cwd := home;
      this.faults := faults;
      connected := false;
      log := [];
    }

    method Connect()
      modifies this
      ensures connected
      ensures fs == old(fs) && cwd == old(cwd) && log == old(log)
    {
      connected := true;
    }

    /** Closes the channel; the same state results when the server drops it. */
    method Disconnect()
      modifies this
      ensures !connected
      ensures fs == old(fs) && cwd == old(cwd) && log == old(log)
    {
      connected := false;
    }

    method Cd(path: string) returns (r: Outcome)
      requires Valid()
      modifies this
      ensures Valid() && fs == old(fs) && connected == old(connected)
      ensures log == old(log) + [Enter(path)]
      ensures r == Reply(CdRefusal(fs, faults, Resolve(old(cwd), path)))
      ensures cwd == if r.Pass? then Resolve(old(cwd), path) else old(cwd)
    {
      log := log + [Enter(path)];
      var k := Resolve(cwd, path);
      r := Reply(CdRefusal(fs, faults, k));
      if r.Pass? {
        cwd := k;
      }
    }

    method Mkdir(path: string) returns (r: Outcome)
      requires Valid()
      modifies this
      ensures Valid() && cwd == old(cwd) && connected == old(connected)
      ensures log == old(log) + [MakeDir(path)]
      ensures r == Reply(MkdirRefusal(old(fs), faults, Resolve(cwd, path)))
      ensures fs == if r.Pass? then old(fs)[Resolve(cwd, path) := Dir] else old(fs)
    {
      log := log + [MakeDir(path)];
      var k := Resolve(cwd, path);
      r := Reply(MkdirRefusal(fs, faults, k));
      if r.Pass? {
        AddDirKeepsWellFormed(fs, k);
        fs := fs[k := Dir];
      }
    }

    method Rm(path: string) returns (r: Outcome)
      requires Valid()
      modifies this
      ensures Valid() && cwd == old(cwd) && connected == old(connected)
      ensures log == old(log) + [RemoveFile(path)]
      ensures r == Reply(RmRefusal(old(fs), faults, Resolve(cwd, path)))
      ensures fs == if r.Pass? then old(fs) - {Resolve(cwd, path)} else old(fs)
    {
      log := log + [RemoveFile(path)];
      var k := Resolve(cwd, path);
      r := Reply(RmRefusal(fs, faults, k));
      if r.Pass? {
        FileIsLeaf(fs, k);
        RemoveLeafKeepsWellFormed(fs, k);
        fs := fs - {k};
      }
    }

    method Rmdir(path: string) returns (r: Outcome)
      requires Valid()
      modifies this
      ensures Valid() && cwd == old(cwd) && connected == old(connected)
      ensures log == old(log) + [RemoveDir(path)]
      ensures r == Reply(RmdirRefusal(old(fs), faults, Resolve(cwd, path)))
      ensures fs == if r.Pass? then old(fs) - {Resolve(cwd, path)} else old(fs)
    {
      log := log + [RemoveDir(path)];
      var k := Resolve(cwd, path);
      r := Reply(RmdirRefusal(fs, faults, k));
      if r.Pass? {
        RemoveLeafKeepsWellFormed(fs, k);
        fs := fs - {k};
      }
    }

    /** Lists a directory as ".", ".." and its entries, or a file as itself. */
    method Ls(path: string) returns (r: Result<seq<Entry>>)
      requires Valid()
      modifies this
      ensures Valid() && fs == old(fs) && cwd == old(cwd) && connected == old(connected)
      ensures log == old(log) + [List(path)]
      ensures var k := Resolve(cwd, path);
              && (r.Err? <==> Access(fs, faults, k).Some?)
              && (r.Err? ==> r.error == SftpStatus(Access(fs, faults, k).value))
              && (r.Ok? && fs[k] == File ==> r.value == [Entry(k[|k| - 1], false)])
              && (r.Ok? && fs[k] == Dir ==>
                    |r.value| >= 2 && r.value[..2] == DotEntries && ListsChildren(fs, k, r.value[2..]))
    {
      log := log + [List(path)];
      var k := Resolve(cwd, path);
      var refusal := Access(fs, faults, k);
      if refusal.Some? {
        return Err(SftpStatus(refusal.value));
      }
      if fs[k] == File {
        assert k != [];
        return Ok([Entry(k[|k| - 1], false)]);
      }
      var children := ListChildren(fs, k);
      r := Ok(DotEntries + children);
      assert r.value[2..] == children;
    }

    method Lstat(path: string) returns (r: Result<Attrs>)
      requires Valid()
      ensures var k := Resolve(cwd, path);
              && (r.Err? <==> Access(fs, faults, k).Some?)
              && (r.Err? ==> r.error == SftpStatus(Access(fs, faults, k).value))
              && (r.Ok? ==> r.value == Attrs(fs[k] == Dir))
    {
      var k := Resolve(cwd, path);
      var refusal := Access(fs, faults, k);
      if refusal.Some? {
        return Err(SftpStatus(refusal.value));
      }
      r := Ok(Attrs(fs[k] == Dir));
    }
  }
}
