/** vfs.c: path parsing, creation, deletion and descriptors, in place. */
module Vfs {
  import opened Common
  import opened Inodes
  import opened InodeCreation
  import opened InodeDeletion
  import opened RamFs
  import opened Paths
  import opened FsLaws
  import opened VfsOperations
  import opened VfsRuns
  import opened VfsLaws

  function Address(n: Option<nat>): int {
    if n.Some? then n.value else NIL
  }

  class Vfs {
    const fs: InodeTable
    const token: array<char>
    const open: array<Descriptor>

    ghost predicate Valid()
      reads this, fs, fs.table, open
    {
      token.Length == MAX_SIZE_NAME + 1 && Good(Sys())
    }

    ghost function Sys(): System
      reads this, fs, fs.table, open
    {
      System(fs.table[..], fs.view, open[..])
    }

    /** The file system after init_fs, with nothing open. */
    constructor ()
      ensures Valid() && fresh(fs) && fresh(fs.table) && fresh(token) && fresh(open)
      ensures JustBooted(Sys()) && SizesOk(fs.table[..]) && ReadsAtZero(Sys())
      ensures forall i :: 0 <= i < FS_NPAGES ==> fs.table[i].size == 0
      ensures forall k :: 0 <= k < MAX_OPEN_FILES ==> open[k].inode == NIL
    {
      fs := new InodeTable();
      token := new char[MAX_SIZE_NAME + 1](_ => '\0');
      open := new Descriptor[MAX_OPEN_FILES](_ => Descriptor(NIL, 0, NIL));
      new;
      forall i | 0 <= i < FS_NPAGES ensures Holders(open[..], i) == 0 {
        HoldersZero(open[..], i);
      }
    }

    // ----- Paths

    /** Copies the first token of a path into `token`; its length, or -1 when it is too long. */
    method GetPathFirstToken(rest: string) returns (size: int)
      requires token.Length == MAX_SIZE_NAME + 1
      modifies token
      ensures FirstSlash(rest) <= MAX_SIZE_NAME ==>
        size == FirstSlash(rest) && token[..size] == rest[..size] && token[size] == '\0'
      ensures FirstSlash(rest) > MAX_SIZE_NAME ==> size == -1 && token[0] == '\0'
    {
      var i := 0;
      while i <= MAX_SIZE_NAME
        invariant i <= MAX_SIZE_NAME + 1 && i <= FirstSlash(rest) && token[..i] == rest[..i]
      {
        if i == |rest| || rest[i] == '/' {
          FirstSlashIs(rest, i);
          token[i] := '\0';
          return i;
        }
        token[i] := rest[i];
        assert rest[..i + 1] == rest[..i] + [rest[i]];
        SlashFurther(rest, i);
        i := i + 1;
      }
      token[0] := '\0';
      return -1;
    }

    /** The first son of that name, or null. */
    method GetSonInode(father: nat, name: string) returns (son: int)
      requires Valid() && father < FS_NPAGES
      ensures SonsInTable(fs.table[..], fs.view)
      ensures son == Address(FindSon(fs.table[..], fs.view.sons[father], name))
    {
      ghost var t, v, s := fs.table[..], fs.view, fs.view.sons[father];
      GoodSizes(Sys());
      SonsChain(t, v, father);
      son := fs.table[father].firstSon;
      ghost var k := 0;
      assert s[0..] == s;
      while son != NIL
        invariant 0 <= k <= |s| && son == (if k < |s| then s[k] else NIL)
        invariant FindSon(t, s, name) == FindSon(t, s[k..], name)
        decreases |s| - k
      {
        assert s[k..][0] == s[k] && s[k..][1..] == s[k + 1..];
        if name == fs.table[son].name {
          return;
        }
        son := fs.table[son].brother;
        k := k + 1;
      }
    }

    /** The node of an absolute path, or null. It ends on every string, and its last test, for
        an empty node, never succeeds. */
    method ParsePath(path: string) returns (inode: int)
      requires Valid()
      modifies token
      ensures inode == Address(Find(Sys(), path))
    {
      hide Find, Good, Lookup, FirstSlash, FindSon;
      GoodSizes(Sys());
      RootFirst(Sys(), path);
      if path == "" || path[0] != '/' {
        return NIL;
      }
      ghost var s := Sys();
      var current: nat := ROOT;
      var rest := path[1..];
      while true
        invariant Sys() == s && token.Length == MAX_SIZE_NAME + 1
        invariant current < FS_NPAGES && s.t[current].kind == FOLDER
        invariant Address(Find(s, path)) == Address(Lookup(s.t, s.v, current, rest))
        decreases |rest|
      {
        OneToken(s, current, rest);
        var size := GetPathFirstToken(rest);
        if size < 0 {
          return NIL;
        }
        var node: int := current;
        if size > 0 {
          node := GetSonInode(current, token[..size]);
        }
        if node == NIL {
          return NIL;
        }
        if fs.table[node].kind == FILE {
          if size != |rest| {
            return NIL;
          } else {
            return node;
          }
        } else if fs.table[node].kind == EMPTY {
          assert false;
        }
        if size == |rest| {
          return node;
        }
        current, rest := node, rest[size + 1..];
      }
    }

    // ----- Files and directories

    /** create_file. */
    method CreateFile(path: string, name: string) returns (code: VfsError)
      requires Valid() && '\0' !in name
      modifies fs`view, fs.table, token
      ensures Valid()
      ensures (Sys(), code) == CreateNode(old(Sys()), path, name, FILE)
    {
      hide Find, Forest, Created, CreatedView, FirstEmpty, OpenOk;
      ghost var s := Sys();
      GoodSizes(s);
      if name == "" || |name| > MAX_SIZE_NAME {
        return VFS_INVALID_NAME;
      }
      var dir := ParsePath(path);
      if dir == NIL {
        return VFS_INVALID_FD;
      }
      if fs.table[dir].kind != FOLDER {
        return VFS_INVALID_FD;
      }
      var newInode := fs.AllocInode(name, dir, FILE);
      if newInode < 0 {
        return VFS_MEMORY_FULL;
      }
      return VFS_OK;
    }

    /** delete_file, of anything but the root: free_inode follows its father link. */
    method DeleteFile(path: string) returns (code: VfsError)
      requires Valid() && Find(Sys(), path) != Some(ROOT)
      modifies fs`view, fs.table, token
      ensures Valid()
      ensures (Sys(), code) == DeleteNode(old(Sys()), path)
    {
      hide Find, Forest, Deleted, OpenOk, SonsInTable, Subtree, ClearedView, UnlinkedView;
      ghost var s := Sys();
      GoodSizes(s);
      var toDelete := ParsePath(path);
      if toDelete == NIL {
        return VFS_INVALID_FD;
      }
      fs.DeleteInode(toDelete, {}, true);
      assert {} - {toDelete} == {};
      return VFS_OK;
    }

    /** create_dir. */
    method CreateDir(path: string, name: string) returns (code: VfsError)
      requires Valid() && '\0' !in name
      modifies fs`view, fs.table, token
      ensures Valid()
      ensures (Sys(), code) == CreateNode(old(Sys()), path, name, FOLDER)
    {
      hide Find, Forest, Created, CreatedView, FirstEmpty, OpenOk;
      ghost var s := Sys();
      GoodSizes(s);
      if name == "" || |name| > MAX_SIZE_NAME {
        return VFS_INVALID_NAME;
      }
      var dir := ParsePath(path);
      if dir == NIL {
        return VFS_INVALID_FD;
      }
      if fs.table[dir].kind != FOLDER {
        return VFS_INVALID_FD;
      }
      var newInode := fs.AllocInode(name, dir, FOLDER);
      if newInode < 0 {
        return VFS_MEMORY_FULL;
      }
      return VFS_OK;
    }

    /** delete_dir, of anything but the root: free_inode follows its father link. */
    method DeleteDir(path: string) returns (code: VfsError)
      requires Valid() && Find(Sys(), path) != Some(ROOT)
      modifies fs`view, fs.table, token
      ensures Valid()
      ensures (Sys(), code) == DeleteNode(old(Sys()), path)
    {
      hide Find, Forest, Deleted, OpenOk, SonsInTable, Subtree, ClearedView, UnlinkedView;
      ghost var s := Sys();
      GoodSizes(s);
      var toDelete := ParsePath(path);
      if toDelete == NIL {
        return VFS_INVALID_FD;
      }
      fs.DeleteInode(toDelete, {}, true);
      assert {} - {toDelete} == {};
      return VFS_OK;
    }

    // ----- Descriptors

    /** The first free descriptor, or -1. */
    method GetNextFd() returns (fd: int)
      requires Valid()
      ensures fd == if NextFd(open[..], 0) == MAX_OPEN_FILES then -1 else NextFd(open[..], 0)
    {
      for i := 0 to MAX_OPEN_FILES
        invariant NextFd(open[..], 0) == NextFd(open[..], i)
      {
        if open[i].inode == NIL {
          return i;
        }
      }
      return -1;
    }

    /** open_file. */
    method OpenFile(path: string) returns (code: VfsError, fd: int)
      requires Valid()
      modifies fs.table, token, open
      ensures Valid()
      ensures (Sys(), code, fd) == OpenNode(old(Sys()), path, FILE)
    {
      hide Find, Forest, NextFd, OpenOk;
      ghost var s := Sys();
      GoodSizes(s);
      OpenGood(s, path, FILE);
      fd := GetNextFd();
      if fd < 0 {
        return VFS_MAX_FD_REACHED, -1;
      }
      var node := ParsePath(path);
      if node == NIL {
        return VFS_INVALID_PATH_FILE, fd;
      }
      if fs.table[node].kind != FILE {
        return VFS_INVALID_FD, fd;
      }
      open[fd] := open[fd].(inode := node, next := 0);
      fs.table[node] := fs.table[node].(ref := fs.table[node].ref + 1);
      assert Sys() == OpenNode(s, path, FILE).0;
      return VFS_OK, fd;
    }

    /** open_dir. */
    method OpenDir(path: string) returns (code: VfsError, fd: int)
      requires Valid()
      modifies fs.table, token, open
      ensures Valid()
      ensures (Sys(), code, fd) == OpenNode(old(Sys()), path, FOLDER)
    {
      hide Find, Forest, NextFd, OpenOk;
      ghost var s := Sys();
      GoodSizes(s);
      OpenGood(s, path, FOLDER);
      fd := GetNextFd();
      if fd < 0 {
        return VFS_MAX_FD_REACHED, -1;
      }
      var node := ParsePath(path);
      if node == NIL {
        return VFS_INVALID_PATH_DIR, fd;
      }
      if fs.table[node].kind != FOLDER {
        return VFS_INVALID_FD, fd;
      }
      open[fd] := open[fd].(inode := node, nextSon := fs.table[node].firstSon);
      fs.table[node] := fs.table[node].(ref := fs.table[node].ref + 1);
      assert Sys() == OpenNode(s, path, FOLDER).0;
      return VFS_OK, fd;
    }

    /** close_file. */
    method CloseFile(fd: int) returns (code: VfsError, newFd: int)
      requires Valid() && fd < MAX_OPEN_FILES
      modifies fs.table, open
      ensures Valid()
      ensures (Sys(), code, newFd) == CloseNode(old(Sys()), fd, FILE)
    {
      hide Forest;
      ghost var s := Sys();
      GoodSizes(s);
      CloseGood(s, fd, FILE);
      if 0 > fd {
        return VFS_INVALID_FD, fd;
      }
      if open[fd].inode == NIL {
        return VFS_INVALID_FD, -1;
      }
      var node := open[fd].inode;
      fs.table[node] := fs.table[node].(ref := fs.table[node].ref - 1);
      open[fd] := open[fd].(inode := NIL, next := 0);
      assert Sys() == CloseNode(s, fd, FILE).0;
      return VFS_OK, -1;
    }

    /** close_dir. */
    method CloseDir(fd: int) returns (code: VfsError, newFd: int)
      requires Valid() && fd < MAX_OPEN_FILES
      modifies fs.table, open
      ensures Valid()
      ensures (Sys(), code, newFd) == CloseNode(old(Sys()), fd, FOLDER)
    {
      hide Forest;
      ghost var s := Sys();
      GoodSizes(s);
      CloseGood(s, fd, FOLDER);
      if 0 > fd {
        return VFS_INVALID_FD, fd;
      }
      if open[fd].inode == NIL {
        return VFS_INVALID_FD, -1;
      }
      var node := open[fd].inode;
      fs.table[node] := fs.table[node].(ref := fs.table[node].ref - 1);
      open[fd] := open[fd].(inode := NIL, nextSon := NIL);
      assert Sys() == CloseNode(s, fd, FOLDER).0;
      return VFS_OK, -1;
    }

    /** get_next_dir_son: the name of the next son of an open directory, empty after the last. */
    method GetNextDirSon(fd: int) returns (code: VfsError, newFd: int, name: Option<string>)
      requires Valid() && fd < MAX_OPEN_FILES
      modifies open
      ensures Valid()
      ensures (Sys(), code, newFd, name) == NextDirSon(old(Sys()), fd)
    {
      hide Forest;
      ghost var s := Sys();
      GoodSizes(s);
      NextGood(s, fd);
      if 0 > fd {
        return VFS_INVALID_FD, fd, None;
      }
      if open[fd].inode == NIL {
        return VFS_INVALID_FD, -1, None;
      }
      if fs.table[open[fd].inode].kind != FOLDER {
        return MINUS_ONE, fd, None;
      }
      if open[fd].nextSon != NIL {
        name := Some(fs.table[open[fd].nextSon].name);
        open[fd] := open[fd].(nextSon := fs.table[open[fd].nextSon].brother);
        assert Sys() == NextDirSon(s, fd).0;
      } else {
        name := Some("");
      }
      return VFS_OK, fd, name;
    }
  }

  lemma {:induction false} FirstSlashIs(rest: string, i: nat)
    requires i <= FirstSlash(rest) && (i == |rest| || rest[i] == '/')
    ensures FirstSlash(rest) == i
  {
    if i > 0 {
      FirstSlashIs(rest[1..], i - 1);
    }
  }

  lemma SlashFurther(rest: string, i: nat)
    requires i <= FirstSlash(rest) && i < |rest| && rest[i] != '/'
    ensures i + 1 <= FirstSlash(rest)
  {
  }

  lemma SonsChain(t: Table, v: View, father: nat)
    requires Forest(t, v, {}) && father < FS_NPAGES
    ensures |t| == |v.sons| == FS_NPAGES && t[father].firstSon == First(v.sons[father])
    ensures forall k :: 0 <= k < |v.sons[father]| ==>
      v.sons[father][k] < FS_NPAGES && t[v.sons[father][k]].brother == After(v.sons[father], k)
  {
    assert SonsOk(t, v.sons[father], {}, father);
  }

  lemma RootFirst(s: System, path: string)
    requires Good(s)
    ensures |s.t| == FS_NPAGES && s.t[ROOT].kind == FOLDER && SonsInTable(s.t, s.v)
    ensures Find(s, path) == if path == "" || path[0] != '/' then None else Lookup(s.t, s.v, ROOT, path[1..])
  {
    hide SonsInTable, Lookup;
    GoodSizes(s);
  }

  /** What one turn of parse_path finds, by the length of the next token. */
  lemma OneToken(s: System, cur: nat, rest: string)
    requires Good(s) && |s.t| == FS_NPAGES && cur < FS_NPAGES && s.t[cur].kind == FOLDER && SonsInTable(s.t, s.v)
    ensures var k, here := FirstSlash(rest), Lookup(s.t, s.v, cur, rest);
      && (k > MAX_SIZE_NAME ==> here == None)
      && (k == 0 && rest == "" ==> here == Some(cur))
      && (k == 0 && rest != "" ==> here == Lookup(s.t, s.v, cur, rest[1..]))
      && (0 < k <= MAX_SIZE_NAME ==>
            var son := FindSon(s.t, s.v.sons[cur], rest[..k]);
            && (son == None ==> here == None)
            && (son.Some? ==> Live(s.t, son.value))
            && (son.Some? && k == |rest| ==> here == son)
            && (son.Some? && k < |rest| ==>
                  here == if s.t[son.value].kind == FILE then None else Lookup(s.t, s.v, son.value, rest[k + 1..])))
  {
    hide Forest, Lookup, FirstSlash, FindSon;
    LookupStep(s.t, s.v, cur, rest);
    var k := FirstSlash(rest);
    if 0 < k {
      var son := FindSon(s.t, s.v.sons[cur], rest[..k]);
      if son.Some? {
        NextSon(s.t, s.v, cur, son.value);
      }
    }
  }
}
