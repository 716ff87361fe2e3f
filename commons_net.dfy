/** The part of Apache Commons Net the FTP transfer calls: an FTP client logged
    in to a server. Each request answers whether the server accepted it (a
    positive completion reply, section 4.2 of RFC 959) instead of raising. The
    client carries the remote tree, the working directory, the keys on which
    the server refuses every request, and whether the server's LIST shows the
    "." and ".." entries. */
module CommonsNet {
  import opened Paths
  import opened Remote

  /** CWD (section 4.1.1 of RFC 959) is accepted on a directory. */
  predicate CwdAccepted(fs: Tree, denied: set<Key>, k: Key) {
    k !in denied && IsDir(fs, k)
  }

  /** MKD (section 4.1.3 of RFC 959) is accepted for a new entry in an existing directory. */
  predicate MkdAccepted(fs: Tree, denied: set<Key>, k: Key) {
    && k !in denied && k != [] && k !in fs
    && IsDir(fs, k[..|k| - 1])
  }

  /** DELE is accepted on a file. */
  predicate DeleAccepted(fs: Tree, denied: set<Key>, k: Key) {
    k !in denied && IsFile(fs, k)
  }

  /** RMD is accepted on an empty directory other than the root. */
  predicate RmdAccepted(fs: Tree, denied: set<Key>, k: Key) {
    && k !in denied && k != [] && IsDir(fs, k)
    && Descendants(fs, k) == {}
  }

  /** An FTP client (org.apache.commons.net.ftp.FTPClient). */
  class FtpClient {
    var fs: Tree
    var cwd: Key
    const denied: set<Key>
    const listsDots: bool
    ghost var log: seq<Request>

    ghost predicate Valid()
      reads this
    {
      WellFormed(fs) && ProperKey(cwd)
    }

    constructor(fs: Tree, home: Key, denied: set<Key>, listsDots: bool)
      requires WellFormed(fs) && ProperKey(home)
      ensures Valid() && log == []
      ensures this.fs == fs && cwd == home && this.denied == denied && this.listsDots == listsDots
    {
      this.fs := fs;
      this.cwd := home;
      this.denied := denied;
      this.listsDots := listsDots;
      log := [];
    }

    method ChangeWorkingDirectory(path: string) returns (ok: bool)
      requires Valid()
      modifies this
      ensures Valid() && fs == old(fs)
      ensures log == old(log) + [Enter(path)]
      ensures ok == CwdAccepted(fs, denied, Resolve(old(cwd), path))
      ensures cwd == if ok then Resolve(old(cwd), path) else old(cwd)
    {
      log := log + [Enter(path)];
      var k := Resolve(cwd, path);
      ok := CwdAccepted(fs, denied, k);
      if ok {
        cwd := k;
      }
    }

    method MakeDirectory(path: string) returns (ok: bool)
      requires Valid()
      modifies this
      ensures Valid() && cwd == old(cwd)
      ensures log == old(log) + [MakeDir(path)]
      ensures ok == MkdAccepted(old(fs), denied, Resolve(cwd, path))
      ensures fs == if ok then old(fs)[Resolve(cwd, path) := Dir] else old(fs)
    {
      log := log + [MakeDir(path)];
      var k := Resolve(cwd, path);
      ok := MkdAccepted(fs, denied, k);
      if ok {
        AddDirKeepsWellFormed(fs, k);
        fs := fs[k := Dir];
      }
    }

    method DeleteFile(path: string) returns (ok: bool)
      requires Valid()
      modifies this
      ensures Valid() && cwd == old(cwd)
      ensures log == old(log) + [RemoveFile(path)]
      ensures ok == DeleAccepted(old(fs), denied, Resolve(cwd, path))
      ensures fs == if ok then old(fs) - {Resolve(cwd, path)} else old(fs)
    {
      log := log + [RemoveFile(path)];
      var k := Resolve(cwd, path);
      ok := DeleAccepted(fs, denied, k);
      if ok {
        FileIsLeaf(fs, k);
        RemoveLeafKeepsWellFormed(fs, k);
        fs := fs - {k};
      }
    }

    method RemoveDirectory(path: string) returns (ok: bool)
      requires Valid()
      modifies this
      ensures Valid() && cwd == old(cwd)
      ensures log == old(log) + [RemoveDir(path)]
      ensures ok == RmdAccepted(old(fs), denied, Resolve(cwd, path))
      ensures fs == if ok then old(fs) - {Resolve(cwd, path)} else old(fs)
    {
      log := log + [RemoveDir(path)];
      var k := Resolve(cwd, path);
      ok := RmdAccepted(fs, denied, k);
      if ok {
        RemoveLeafKeepsWellFormed(fs, k);
        fs := fs - {k};
      }
    }

    /** LIST (section 4.1.3 of RFC 959): a directory lists its entries, after
        "." and ".." when the server shows them; a file lists as itself. The
        library never answers null: a path the server refuses, or that is not
        there, lists as empty. */
    method ListFiles(path: string) returns (es: seq<Entry>)
      requires Valid()
      ensures var k := Resolve(cwd, path);
              var dots := if listsDots then DotEntries else [];
              && (k in denied || k !in fs ==> es == [])
              && (k !in denied && IsFile(fs, k) ==> k != [] && es == [Entry(k[|k| - 1], false)])
              && (k !in denied && IsDir(fs, k) ==>
                    |es| >= |dots| && es[..|dots|] == dots && ListsChildren(fs, k, es[|dots|..]))
    {
      var k := Resolve(cwd, path);
      if k in denied || k !in fs {
        return [];
      }
      if fs[k] == File {
        assert Present(fs, k);
        return [Entry(k[|k| - 1], false)];
      }
      var children := ListChildren(fs, k);
      var dots := if listsDots then DotEntries else [];
      es := dots + children;
      assert es[|dots|..] == children;
    }
  }
}
