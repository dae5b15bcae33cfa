/** What the operations of vfs.c do to the inode table and the open descriptors, on values. */
module VfsOperations {
  import opened Common
  import opened Inodes
  import opened InodeCreation
  import opened InodeDeletion
  import opened Paths
  import opened FsLaws

  const MAX_OPEN_FILES: nat := 128

  /** vfs_error; get_next_dir_son also answers -1, which is none of its members. */
  datatype VfsError =
    | VFS_OK | VFS_INVALID_PATH | VFS_INVALID_FD | VFS_INVALID_PATH_DIR | VFS_INVALID_PATH_FILE
    | VFS_MAX_FD_REACHED | VFS_MEMORY_FULL | VFS_INVALID_NAME | VFS_NULL_POINTER | VFS_UNKWON_ERROR
    | MINUS_ONE

  /** An entry of open_inodes; it is free when its inode is NIL. */
  datatype Descriptor = Descriptor(inode: int, next: nat, nextSon: int)

  datatype System = System(t: Table, v: View, open: seq<Descriptor>)

  predicate Pointer(p: int) {
    p == NIL || InTable(p)
  }

  predicate OpenOk(open: seq<Descriptor>) {
    |open| == MAX_OPEN_FILES && forall k :: 0 <= k < |open| ==> Pointer(open[k].inode) && Pointer(open[k].nextSon)
  }

  /** A descriptor may outlive its inode: nothing ties it to a live node. */
  ghost predicate Good(s: System) {
    Forest(s.t, s.v, {}) && OpenOk(s.open)
  }

  lemma GoodSizes(s: System)
    requires Good(s)
    ensures |s.t| == |s.v.sons| == |s.v.depth| == FS_NPAGES && SonsInTable(s.t, s.v) && |s.open| == MAX_OPEN_FILES
  {
    hide SlotOk, SonsOk;
    ForestSons(s.t, s.v, {});
  }

  // ----- Nodes

  ghost function Find(s: System, path: string): (r: Option<nat>)
    requires Good(s)
    ensures r.Some? ==> Live(s.t, r.value)
    ensures r.Some? && r.value != ROOT ==> 0 <= s.t[r.value].father < |s.v.sons|
  {
    GoodSizes(s);
    var r := Resolve(s.t, s.v, path);
    assert r.Some? ==> Live(s.t, r.value) && (r.value != ROOT ==> 0 <= s.t[r.value].father < |s.v.sons|) by {
      if r.Some? {
        FoundIsLive(s, path);
      }
    }
    r
  }

  lemma FoundIsLive(s: System, path: string)
    requires Good(s) && SonsInTable(s.t, s.v) && Resolve(s.t, s.v, path).Some?
    ensures var n := Resolve(s.t, s.v, path).value;
      Live(s.t, n) && (n != ROOT ==> 0 <= s.t[n].father < |s.v.sons|)
  {
    hide SonsOk, Descend, Tokens, SonsInTable, OpenOk;
    DescendLive(s.t, s.v, ROOT, Tokens(path[1..]));
    assert SlotOk(s.t, s.v.depth, Resolve(s.t, s.v, path).value);
  }

  /** A path leads to the root iff it is made of slashes only. */
  lemma RootPath(s: System, path: string)
    requires Good(s)
    ensures Find(s, path) == Some(ROOT) <==> path != "" && forall i :: 0 <= i < |path| ==> path[i] == '/'
  {
    hide Tokens, Forest, Trailing;
    GoodSizes(s);
    RootIsFolder(s);
    if path != "" && path[0] == '/' {
      OnlySlashes(path[1..]);
      assert forall i :: 0 < i < |path| ==> path[i] == path[1..][i - 1];
      if Tokens(path[1..]) != [] {
        NotRoot(s.t, s.v, ROOT, Tokens(path[1..]));
      }
    }
  }

  lemma RootIsFolder(s: System)
    requires Good(s)
    ensures s.t[ROOT].kind == FOLDER
  {
  }

  lemma {:induction false} NotRoot(t: Table, v: View, cur: nat, tokens: seq<string>)
    requires Forest(t, v, {}) && SonsInTable(t, v) && Live(t, cur) && tokens != []
    ensures Descend(t, v, cur, tokens) != Some(ROOT)
    decreases |tokens|
  {
    var son := FindSon(t, v.sons[cur], tokens[0]);
    if son.Some? {
      assert SonsOk(t, v.sons[cur], {}, cur) && IsSon(t, {}, cur, son.value);
      if |tokens| > 1 {
        NotRoot(t, v, son.value, tokens[1..]);
      }
    }
  }

  /** create_file and create_dir. */
  ghost function CreateNode(s: System, path: string, name: string, kind: Kind): (System, VfsError)
    requires Good(s)
  {
    GoodSizes(s);
    if name == "" || |name| > MAX_SIZE_NAME then (s, VFS_INVALID_NAME)
    else
      match Find(s, path)
      case None => (s, VFS_INVALID_FD)
      case Some(f) =>
        if s.t[f].kind != FOLDER then (s, VFS_INVALID_FD)
        else if FirstEmpty(s.t, 0) == FS_NPAGES then (s, VFS_MEMORY_FULL)
        else
          var i := FirstEmpty(s.t, 0);
          (s.(t := Created(s.t, i, f, name, kind), v := CreatedView(s.v, i, f)), VFS_OK)
  }

  /** delete_file and delete_dir, of anything but the root. */
  ghost function DeleteNode(s: System, path: string): (System, VfsError)
    requires Good(s) && Find(s, path) != Some(ROOT)
  {
    match Find(s, path)
    case None => (s, VFS_INVALID_FD)
    case Some(n) => (s.(t := Deleted(s.t, n, true), v := DeletedView(s.t, s.v, n)), VFS_OK)
  }

  // ----- Descriptors

  /** get_next_fd: the first free descriptor from `from` on, or |open|. */
  function NextFd(open: seq<Descriptor>, from: nat): (fd: nat)
    requires from <= |open|
    ensures from <= fd <= |open| && (forall k :: from <= k < fd ==> open[k].inode != NIL)
    ensures fd < |open| ==> open[fd].inode == NIL
    decreases |open| - from
  {
    if from == |open| || open[from].inode == NIL then from else NextFd(open, from + 1)
  }

  function OpenedEntry(d: Descriptor, n: Inode, i: int, kind: Kind): Descriptor {
    if kind == FILE then d.(inode := i, next := 0) else d.(inode := i, nextSon := n.firstSon)
  }

  /** open_file and open_dir; the last result is what the caller's descriptor becomes. */
  ghost function OpenNode(s: System, path: string, kind: Kind): (System, VfsError, int)
    requires Good(s)
  {
    GoodSizes(s);
    var fd: int := NextFd(s.open, 0);
    if fd == MAX_OPEN_FILES then (s, VFS_MAX_FD_REACHED, -1)
    else
      match Find(s, path)
      case None => (s, if kind == FILE then VFS_INVALID_PATH_FILE else VFS_INVALID_PATH_DIR, fd)
      case Some(n) =>
        if s.t[n].kind != kind then (s, VFS_INVALID_FD, fd)
        else
          var open := s.open[fd := OpenedEntry(s.open[fd], s.t[n], n, kind)];
          (s.(open := open, t := s.t[n := s.t[n].(ref := s.t[n].ref + 1)]), VFS_OK, fd)
  }

  function ClosedEntry(d: Descriptor, kind: Kind): Descriptor {
    if kind == FILE then d.(inode := NIL, next := 0) else d.(inode := NIL, nextSon := NIL)
  }

  /** close_file and close_dir; neither asks for the kind of the inode. */
  ghost function CloseNode(s: System, fd: int, kind: Kind): (System, VfsError, int)
    requires Good(s) && fd < MAX_OPEN_FILES
  {
    GoodSizes(s);
    if fd < 0 then (s, VFS_INVALID_FD, fd)
    else if s.open[fd].inode == NIL then (s, VFS_INVALID_FD, -1)
    else
      var i := s.open[fd].inode;
      var open := s.open[fd := ClosedEntry(s.open[fd], kind)];
      (s.(open := open, t := s.t[i := s.t[i].(ref := s.t[i].ref - 1)]), VFS_OK, -1)
  }

  /** get_next_dir_son; the last result is the name it stores, if any. */
  ghost function NextDirSon(s: System, fd: int): (System, VfsError, int, Option<string>)
    requires Good(s) && fd < MAX_OPEN_FILES
  {
    GoodSizes(s);
    if fd < 0 then (s, VFS_INVALID_FD, fd, None)
    else if s.open[fd].inode == NIL then (s, VFS_INVALID_FD, -1, None)
    else if s.t[s.open[fd].inode].kind != FOLDER then (s, MINUS_ONE, fd, None)
    else
      var son := s.open[fd].nextSon;
      if son == NIL then (s, VFS_OK, fd, Some(""))
      else (s.(open := s.open[fd := s.open[fd].(nextSon := s.t[son].brother)]), VFS_OK, fd, Some(s.t[son].name))
  }

  // ----- One operation

  datatype Op =
    | Create(path: string, name: string, kind: Kind)
    | Delete(path: string)
    | Open(path: string, kind: Kind)
    | Close(fd: int, kind: Kind)
    | Next(fd: int)
    | Resize(inode: nat, size: nat) // what reset_inode and write_inode do to the table

  /** What the code demands of a caller: strings end at their NUL, the root is not deleted,
      descriptors are below 128. */
  ghost predicate Enabled(s: System, op: Op)
    requires Good(s)
  {
    match op
    case Create(path, name, kind) => kind != EMPTY && '\0' !in name
    case Delete(path) => Find(s, path) != Some(ROOT)
    case Open(path, kind) => kind != EMPTY
    case Close(fd, kind) => fd < MAX_OPEN_FILES && kind != EMPTY
    case Next(fd) => fd < MAX_OPEN_FILES
    case Resize(i, size) => i < |s.t| && s.t[i].kind == FILE
  }

  ghost function Step(s: System, op: Op): (s': System)
    requires Good(s) && Enabled(s, op)
  {
    match op
    case Create(path, name, kind) => CreateNode(s, path, name, kind).0
    case Delete(path) => DeleteNode(s, path).0
    case Open(path, kind) => OpenNode(s, path, kind).0
    case Close(fd, kind) => CloseNode(s, fd, kind).0
    case Next(fd) => NextDirSon(s, fd).0
    case Resize(i, size) => s.(t := s.t[i := s.t[i].(size := size)])
  }

  // ----- Every operation keeps the forest

  /** Reference counts, and sizes of live nodes, are free. */
  lemma SameLinks(t: Table, t': Table, v: View)
    requires Forest(t, v, {}) && |t'| == FS_NPAGES == |t|
    requires forall j :: 0 <= j < FS_NPAGES ==>
      t'[j] == t[j].(ref := t'[j].ref, size := t'[j].size) && (t[j].kind == EMPTY ==> t'[j].size == t[j].size)
    ensures Forest(t', v, {})
  {
    hide SonsOk, SlotOk;
    forall j | 0 <= j < FS_NPAGES ensures SlotOk(t', v.depth, j) && SonsOk(t', v.sons[j], {}, j) {
      assert SlotOk(t, v.depth, j) && SonsOk(t, v.sons[j], {}, j);
      SameSlot(t, t', v.depth, j);
      SameSons(t, t', v.sons[j], j);
    }
  }

  lemma SameSlot(t: Table, t': Table, depth: seq<nat>, j: nat)
    requires |t'| == FS_NPAGES && j < FS_NPAGES && SlotOk(t, depth, j)
    requires forall i :: 0 <= i < FS_NPAGES ==>
      t'[i] == t[i].(ref := t'[i].ref, size := t'[i].size) && (t[i].kind == EMPTY ==> t'[i].size == t[i].size)
    ensures SlotOk(t', depth, j)
  {
  }

  lemma SameSons(t: Table, t': Table, sons: seq<nat>, i: nat)
    requires |t'| == FS_NPAGES && SonsOk(t, sons, {}, i)
    requires forall j :: 0 <= j < FS_NPAGES ==> t'[j] == t[j].(ref := t'[j].ref, size := t'[j].size)
    ensures SonsOk(t', sons, {}, i)
  {
    forall j: nat ensures j in sons <==> IsSon(t', {}, i, j) {
      assert j in sons <==> IsSon(t, {}, i, j);
    }
  }

  /** Every operation keeps the inode table a well-formed forest, whatever is open or dangling. */
  lemma StepGood(s: System, op: Op)
    requires Good(s) && Enabled(s, op)
    ensures Good(Step(s, op))
  {
    hide Forest, SonsInTable;
    GoodSizes(s);
    match op
    case Create(path, name, kind) =>
      var f := Find(s, path);
      if CreateNode(s, path, name, kind).1 == VFS_OK {
        CreateKeeps(s.t, s.v, FirstEmpty(s.t, 0), f.value, name, kind);
      }
    case Delete(path) =>
      var n := Find(s, path);
      if n.Some? {
        DeleteKeeps(s.t, s.v, n.value);
      }
    case Open(path, kind) =>
      OpenGood(s, path, kind);
    case Close(fd, kind) =>
      CloseGood(s, fd, kind);
    case Next(fd) =>
      NextGood(s, fd);
    case Resize(i, size) =>
      SameLinks(s.t, Step(s, op).t, s.v);
  }

  lemma OpenGood(s: System, path: string, kind: Kind)
    requires Good(s)
    ensures Good(OpenNode(s, path, kind).0)
  {
    hide Forest, SonsInTable;
    GoodSizes(s);
    var fd, n := NextFd(s.open, 0), Find(s, path);
    if fd < MAX_OPEN_FILES && n.Some? && s.t[n.value].kind == kind {
      SameLinks(s.t, OpenNode(s, path, kind).0.t, s.v);
      LinksLive(s.t, s.v, n.value);
    }
  }

  lemma CloseGood(s: System, fd: int, kind: Kind)
    requires Good(s) && fd < MAX_OPEN_FILES
    ensures Good(CloseNode(s, fd, kind).0)
  {
    hide Forest, SonsInTable;
    GoodSizes(s);
    if fd >= 0 && s.open[fd].inode != NIL {
      SameLinks(s.t, CloseNode(s, fd, kind).0.t, s.v);
    }
  }

  lemma NextGood(s: System, fd: int)
    requires Good(s) && fd < MAX_OPEN_FILES
    ensures Good(NextDirSon(s, fd).0)
  {
    hide Forest, SonsInTable;
    GoodSizes(s);
    if 0 <= fd && s.open[fd].nextSon != NIL {
      LinksLive(s.t, s.v, s.open[fd].nextSon);
    }
  }
}
