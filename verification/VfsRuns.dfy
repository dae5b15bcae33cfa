/** What holds over every run of file system operations: reference counts and directory listings. */
module VfsRuns {
  import opened Common
  import opened Inodes
  import opened InodeCreation
  import opened InodeDeletion
  import opened Paths
  import opened FsLaws
  import opened VfsOperations

  /** Every operation of the run is one its caller may ask for. */
  ghost predicate CanRun(s: System, ops: seq<Op>)
    requires Good(s)
    decreases |ops|
  {
    ops == [] || (Enabled(s, ops[0]) && CanRun(Advance(s, ops[0]), ops[1..]))
  }

  /** Step, with the state known to be good. */
  ghost function Advance(s: System, op: Op): (s': System)
    requires Good(s) && Enabled(s, op)
    ensures Good(s') && s' == Step(s, op)
  {
    StepGood(s, op);
    Step(s, op)
  }

  /** The inode table is a well-formed forest at the end of every run. */
  ghost function Run(s: System, ops: seq<Op>): (s': System)
    requires Good(s) && CanRun(s, ops)
    ensures Good(s')
    decreases |ops|
  {
    if ops == [] then s else Run(Advance(s, ops[0]), ops[1..])
  }

  // ----- Reference counts

  /** How many descriptors are open on inode i. */
  function Holders(open: seq<Descriptor>, i: int): nat {
    if open == [] then 0 else (if open[0].inode == i then 1 else 0) + Holders(open[1..], i)
  }

  ghost predicate RefsOk(s: System) {
    forall i :: 0 <= i < |s.t| ==> s.t[i].ref == Holders(s.open, i)
  }

  lemma {:induction false} HoldersUpdate(open: seq<Descriptor>, k: nat, d: Descriptor, i: int)
    requires k < |open|
    ensures Holders(open[k := d], i)
         == Holders(open, i) - (if open[k].inode == i then 1 else 0) + (if d.inode == i then 1 else 0)
  {
    if k == 0 {
      assert open[0 := d][1..] == open[1..];
    } else {
      assert open[k := d][1..] == open[1..][k - 1 := d];
      HoldersUpdate(open[1..], k - 1, d, i);
    }
  }

  lemma {:induction false} HoldersZero(open: seq<Descriptor>, i: int)
    ensures Holders(open, i) == 0 <==> forall k :: 0 <= k < |open| ==> open[k].inode != i
  {
    if open != [] {
      HoldersZero(open[1..], i);
      assert forall k :: 0 < k < |open| ==> open[k] == open[1..][k - 1];
    }
  }

  /** A descriptor is open on a node that the operation deletes. */
  ghost predicate DeletesOpen(s: System, op: Op)
    requires Good(s)
  {
    op.Delete? && Find(s, op.path).Some?
    && exists k :: 0 <= k < |s.open| && InTable(s.open[k].inode) && Under(s.t, Find(s, op.path).value, s.open[k].inode)
  }

  /** An operation keeps every reference count equal to the number of descriptors open on the
      inode, iff it does not delete an open node. */
  lemma StepRefs(s: System, op: Op)
    requires Good(s) && Enabled(s, op) && RefsOk(s)
    ensures RefsOk(Step(s, op)) <==> !DeletesOpen(s, op)
  {
    hide Forest, SonsInTable, Holders, Find, FirstEmpty, NextFd, Created, Deleted, DeletedView, CreatedView, Under;
    GoodSizes(s);
    match op
    case Create(path, name, kind) =>
      CreatedRefs(s, path, name, kind);
    case Delete(path) =>
      DeletedRefs(s, path);
    case Open(path, kind) =>
      OpenedRefs(s, path, kind);
    case Close(fd, kind) =>
      if fd >= 0 {
        forall i ensures Holders(s.open[fd := ClosedEntry(s.open[fd], kind)], i)
                      == Holders(s.open, i) - (if s.open[fd].inode == i then 1 else 0) + (if i == NIL then 1 else 0)
        {
          HoldersUpdate(s.open, fd, ClosedEntry(s.open[fd], kind), i);
        }
      }
    case Next(fd) =>
      if fd >= 0 {
        forall i, d: Descriptor | d.inode == s.open[fd].inode
          ensures Holders(s.open[fd := d], i) == Holders(s.open, i)
        {
          HoldersUpdate(s.open, fd, d, i);
        }
      }
    case Resize(i, size) =>
  }

  lemma OpenedRefs(s: System, path: string, kind: Kind)
    requires Good(s) && RefsOk(s)
    ensures RefsOk(OpenNode(s, path, kind).0)
  {
    hide Forest, SonsInTable, Holders, Find, NextFd;
    GoodSizes(s);
    var fd, n := NextFd(s.open, 0), Find(s, path);
    if fd < MAX_OPEN_FILES && n.Some? {
      var d := OpenedEntry(s.open[fd], s.t[n.value], n.value, kind);
      forall i ensures Holders(s.open[fd := d], i)
                    == Holders(s.open, i) - (if s.open[fd].inode == i then 1 else 0) + (if d.inode == i then 1 else 0)
      {
        HoldersUpdate(s.open, fd, d, i);
      }
    }
  }

  lemma CreatedRefs(s: System, path: string, name: string, kind: Kind)
    requires Good(s) && RefsOk(s)
    ensures RefsOk(CreateNode(s, path, name, kind).0)
  {
    hide Forest, SonsInTable, Holders, Find, FirstEmpty;
    GoodSizes(s);
  }

  lemma DeletedRefs(s: System, path: string)
    requires Good(s) && RefsOk(s) && Find(s, path) != Some(ROOT)
    ensures RefsOk(DeleteNode(s, path).0) <==> !DeletesOpen(s, Delete(path))
  {
    hide Forest, SonsInTable, Holders, Find, Under, Subtree, Unlinked;
    GoodSizes(s);
    var n := Find(s, path);
    if n.Some? {
      forall i | 0 <= i < FS_NPAGES
        ensures Deleted(s.t, n.value, true)[i].ref == if Under(s.t, n.value, i) then 0 else s.t[i].ref
      {
        DeletedRef(s.t, n.value, i);
        HoldersZero(s.open, i);
      }
      forall i | 0 <= i < FS_NPAGES
        ensures Holders(s.open, i) == 0 <==> forall k :: 0 <= k < |s.open| ==> s.open[k].inode != i
      {
        HoldersZero(s.open, i);
      }
      if DeletesOpen(s, Delete(path)) {
        var k :| 0 <= k < |s.open| && InTable(s.open[k].inode) && Under(s.t, n.value, s.open[k].inode);
        assert DeleteNode(s, path).0.t[s.open[k].inode].ref == 0;
        assert Holders(s.open, s.open[k].inode) != 0;
      }
    }
  }

  lemma DeletedRef(t: Table, n: nat, i: nat)
    requires n < |t| == FS_NPAGES && i < FS_NPAGES
    ensures Deleted(t, n, true)[i].ref == if Under(t, n, i) then 0 else t[i].ref
  {
    hide Under;
  }

  ghost predicate NeverDeletesOpen(s: System, ops: seq<Op>)
    requires Good(s) && CanRun(s, ops)
    decreases |ops|
  {
    ops == [] || (!DeletesOpen(s, ops[0]) && NeverDeletesOpen(Advance(s, ops[0]), ops[1..]))
  }

  /** In every run that never deletes an open node, each reference count is the number of
      descriptors open on the inode. */
  lemma {:induction false} RunRefs(s: System, ops: seq<Op>)
    requires Good(s) && CanRun(s, ops) && RefsOk(s) && NeverDeletesOpen(s, ops)
    ensures RefsOk(Run(s, ops))
    decreases |ops|
  {
    hide Good, RefsOk, DeletesOpen, Enabled, Step;
    if ops != [] {
      StepRefs(s, ops[0]);
      RunRefs(Advance(s, ops[0]), ops[1..]);
    }
  }

  /** An opening takes a free descriptor and leaves the others alone; it fails for want of one
      iff all 128 are taken. */
  lemma OpenTakesFree(s: System, path: string, kind: Kind)
    requires Good(s)
    ensures var (s', code, fd) := OpenNode(s, path, kind);
      && (code == VFS_MAX_FD_REACHED <==> forall k :: 0 <= k < MAX_OPEN_FILES ==> s.open[k].inode != NIL)
      && (code == VFS_OK ==>
            && Find(s, path).Some? && 0 <= fd < |s.open| == |s'.open| && s.open[fd].inode == NIL
            && s'.open[fd].inode == Find(s, path).value && s.t[Find(s, path).value].kind == kind
            && (forall k :: 0 <= k < |s.open| && k != fd ==> s'.open[k] == s.open[k])
            && Holders(s'.open, Find(s, path).value) == Holders(s.open, Find(s, path).value) + 1)
      && (code != VFS_OK ==> s' == s)
  {
    hide Forest, SonsInTable, Holders, Find;
    GoodSizes(s);
    var fd, n := NextFd(s.open, 0), Find(s, path);
    if fd < MAX_OPEN_FILES && n.Some? {
      HoldersUpdate(s.open, fd, OpenedEntry(s.open[fd], s.t[n.value], n.value, kind), n.value);
    }
  }

  /** Some descriptor is free. */
  predicate FreeDescriptor(open: seq<Descriptor>) {
    exists k :: 0 <= k < |open| && open[k].inode == NIL
  }

  lemma FreeIsNext(open: seq<Descriptor>)
    ensures FreeDescriptor(open) <==> NextFd(open, 0) < |open|
  {
  }

  /** An opening succeeds iff some descriptor is free and the path leads to a node of the kind asked
      for; its code tells what is missing. It then takes the lowest free descriptor, puts the node
      in it with nothing read or all sons ahead, and counts one reference more; nothing else
      changes. The caller's descriptor is the one taken even where the path is at fault. */
  lemma OpenSucceeds(s: System, path: string, kind: Kind)
    requires Good(s)
    ensures var (s', code, fd) := OpenNode(s, path, kind);
      && (code == VFS_OK <==> FreeDescriptor(s.open) && Find(s, path).Some? && s.t[Find(s, path).value].kind == kind)
      && (code == VFS_MAX_FD_REACHED <==> !FreeDescriptor(s.open))
      && (code == (if kind == FILE then VFS_INVALID_PATH_FILE else VFS_INVALID_PATH_DIR) <==>
            FreeDescriptor(s.open) && Find(s, path) == None)
      && (code == VFS_INVALID_FD <==>
            FreeDescriptor(s.open) && Find(s, path).Some? && s.t[Find(s, path).value].kind != kind)
      && (if !FreeDescriptor(s.open) then fd == -1
          else 0 <= fd < |s.open| && s.open[fd].inode == NIL && forall k :: 0 <= k < fd ==> s.open[k].inode != NIL)
      && (code != VFS_OK ==> s' == s)
      && (code == VFS_OK ==>
            var n := Find(s, path).value;
            && s'.v == s.v && s'.t == s.t[n := s.t[n].(ref := s.t[n].ref + 1)]
            && s'.open == s.open[fd := s'.open[fd]] && s'.open[fd].inode == n
            && s'.open[fd].next == (if kind == FILE then 0 else s.open[fd].next)
            && s'.open[fd].nextSon == (if kind == FILE then s.open[fd].nextSon else s.t[n].firstSon))
  {
    hide Forest, SonsInTable, Find;
    GoodSizes(s);
    FreeIsNext(s.open);
  }

  /** A closing succeeds iff its descriptor is open. It then frees the descriptor and counts one
      reference less for its inode; nothing else changes, and the caller's descriptor becomes -1. */
  lemma CloseSucceeds(s: System, fd: int, kind: Kind)
    requires Good(s) && fd < MAX_OPEN_FILES && kind != EMPTY
    ensures |s.open| == MAX_OPEN_FILES
    ensures var (s', code, fd') := CloseNode(s, fd, kind);
      && (code == VFS_OK <==> fd >= 0 && s.open[fd].inode != NIL)
      && (code != VFS_OK ==> code == VFS_INVALID_FD && s' == s && fd' == if fd < 0 then fd else -1)
      && (code == VFS_OK ==>
            var i := s.open[fd].inode;
            && fd' == -1 && s'.v == s.v && 0 <= i < |s.t|
            && s'.t == s.t[i := s.t[i].(ref := s.t[i].ref - 1)]
            && |s'.open| == |s.open| && s'.open[fd].inode == NIL
            && s'.open[fd].next == (if kind == FILE then 0 else s.open[fd].next)
            && s'.open[fd].nextSon == (if kind == FILE then s.open[fd].nextSon else NIL)
            && (forall k :: 0 <= k < |s.open| && k != fd ==> s'.open[k] == s.open[k])
            && Holders(s'.open, i) == Holders(s.open, i) - 1)
  {
    hide Forest, SonsInTable, Holders;
    GoodSizes(s);
    if fd >= 0 {
      HoldersUpdate(s.open, fd, ClosedEntry(s.open[fd], kind), s.open[fd].inode);
    }
  }

  /** An opening and its closing: the inode table is as before, the same descriptors are free, and
      the next opening takes the same one again. */
  lemma OpenThenClose(s: System, path: string, kind: Kind, closing: Kind)
    requires Good(s) && closing != EMPTY && FreeDescriptor(s.open)
    requires Find(s, path).Some? && s.t[Find(s, path).value].kind == kind
    ensures var (s1, code, fd) := OpenNode(s, path, kind);
      && code == VFS_OK && Good(s1) && 0 <= fd < MAX_OPEN_FILES
      && var (s2, code', fd') := CloseNode(s1, fd, closing);
      && code' == VFS_OK && fd' == -1 && s2.t == s.t && s2.v == s.v && |s2.open| == |s.open|
      && (forall k :: 0 <= k < |s.open| ==> s2.open[k].inode == s.open[k].inode)
      && (forall k :: 0 <= k < |s.open| && k != fd ==> s2.open[k] == s.open[k])
      && NextFd(s2.open, 0) == NextFd(s.open, 0) == fd
  {
    hide Forest, Find, SonsInTable, Holders;
    GoodSizes(s);
    OpenGood(s, path, kind);
    OpenSucceeds(s, path, kind);
    var (s1, _, fd) := OpenNode(s, path, kind);
    GoodSizes(s1);
    CloseSucceeds(s1, fd, closing);
    var s2 := CloseNode(s1, fd, closing).0;
    assert s2.t == s.t;
    NextFdSame(s.open, s2.open, 0);
  }

  lemma {:induction false} NextFdSame(a: seq<Descriptor>, b: seq<Descriptor>, from: nat)
    requires |a| == |b| && from <= |a| && forall k :: 0 <= k < |a| ==> a[k].inode == b[k].inode
    ensures NextFd(a, from) == NextFd(b, from)
    decreases |a| - from
  {
    if from < |a| && a[from].inode != NIL {
      NextFdSame(a, b, from + 1);
    }
  }

  /** get_next_dir_son answers VFS_OK iff its descriptor is open on a folder; otherwise nothing
      changes and no name is stored. */
  lemma NextSucceeds(s: System, fd: int)
    requires Good(s) && fd < MAX_OPEN_FILES
    ensures |s.open| == MAX_OPEN_FILES
    ensures var (s', code, fd', name) := NextDirSon(s, fd);
      && (code == VFS_OK <==> fd >= 0 && s.open[fd].inode != NIL && s.t[s.open[fd].inode].kind == FOLDER)
      && (code == VFS_INVALID_FD <==> fd < 0 || s.open[fd].inode == NIL)
      && (code == MINUS_ONE <==> fd >= 0 && s.open[fd].inode != NIL && s.t[s.open[fd].inode].kind != FOLDER)
      && (code == VFS_OK <==> name.Some?) && (code != VFS_OK ==> s' == s)
      && fd' == if fd >= 0 && s.open[fd].inode == NIL then -1 else fd
  {
    hide Forest, SonsInTable;
    GoodSizes(s);
  }

  // ----- Sizes and reading positions

  predicate SizesOk(t: Table) {
    forall i :: 0 <= i < |t| ==> t[i].size <= FILE_MAX_SIZE
  }

  predicate ReadsAtZero(s: System) {
    forall k :: 0 <= k < |s.open| ==> s.open[k].next == 0
  }

  /** No operation moves a reading position: every read starts at the beginning of the file. */
  lemma {:induction false} AlwaysReadsAtZero(s: System, ops: seq<Op>)
    requires Good(s) && CanRun(s, ops) && ReadsAtZero(s)
    ensures ReadsAtZero(Run(s, ops))
    decreases |ops|
  {
    hide Good, ReadsAtZero, Enabled, Step;
    if ops != [] {
      StepReadsAtZero(s, ops[0]);
      AlwaysReadsAtZero(Advance(s, ops[0]), ops[1..]);
    }
  }

  lemma StepReadsAtZero(s: System, op: Op)
    requires Good(s) && Enabled(s, op) && ReadsAtZero(s)
    ensures ReadsAtZero(Step(s, op))
  {
    hide Forest, SonsInTable, Find;
    GoodSizes(s);
  }

  /** Only writing changes the size of a node that stays; new and deleted nodes have size 0. */
  lemma StepSizes(s: System, op: Op, i: nat)
    requires Good(s) && Enabled(s, op) && !op.Resize? && i < FS_NPAGES
    ensures |s.t| == |Step(s, op).t| == FS_NPAGES
    ensures Step(s, op).t[i].size == if Step(s, op).t[i].kind == EMPTY then 0 else s.t[i].size
    ensures s.t[i].kind == EMPTY ==> s.t[i].size == 0
  {
    hide Forest, SonsInTable, Find;
    GoodSizes(s);
    EmptySize(s, i);
    if op.Delete? && Find(s, op.path).Some? {
      var n := Find(s, op.path).value;
      DeletedKind(s.t, n, i);
    }
  }

  lemma EmptySize(s: System, i: nat)
    requires Good(s) && i < FS_NPAGES
    ensures |s.t| == FS_NPAGES && (s.t[i].kind == EMPTY ==> s.t[i].size == 0)
  {
    assert SlotOk(s.t, s.v.depth, i);
  }

  lemma DeletedKind(t: Table, n: nat, i: nat)
    requires n < |t| == FS_NPAGES && i < FS_NPAGES
    ensures Deleted(t, n, true)[i].kind == if Under(t, n, i) then EMPTY else t[i].kind
    ensures Deleted(t, n, true)[i].size == if Under(t, n, i) then 0 else t[i].size
  {
    hide Under;
  }

  // ----- Directory listings

  /** The operation leaves descriptor fd open, and its folder n and n's sons in place. */
  ghost predicate Quiet(s: System, op: Op, fd: nat, n: nat)
    requires Good(s)
  {
    match op
    case Close(f, _) => f != fd
    case Delete(path) =>
      var m := Find(s, path);
      m.Some? ==> !Under(s.t, m.value, n) && s.t[m.value].father != n
    case _ => true
  }

  /** Descriptor fd lists folder n: `got` sons are behind it, `start` of the sons were there when
      it was opened. */
  ghost predicate Cursor(s: System, fd: nat, n: nat, got: nat, start: nat) {
    && fd < |s.open| && n < |s.t| && n < |s.v.sons|
    && s.open[fd].inode == n && s.t[n].kind == FOLDER && start <= |s.v.sons[n]|
    && (if s.open[fd].nextSon == NIL then start <= got <= |s.v.sons[n]|
        else got < |s.v.sons[n]| && s.open[fd].nextSon == s.v.sons[n][got])
  }

  /** The sons of n are those before and perhaps more; nobody changed its name. */
  ghost predicate Grown(s: System, s': System, n: nat) {
    && |s.t| == |s.v.sons| == |s'.t| == |s'.v.sons| == FS_NPAGES && n < FS_NPAGES
    && s.v.sons[n] <= s'.v.sons[n]
    && forall k :: 0 <= k < |s.v.sons[n]| ==>
      s.v.sons[n][k] < FS_NPAGES && s'.t[s.v.sons[n][k]].name == s.t[s.v.sons[n][k]].name
  }

  /** A new listing has all its sons ahead. */
  lemma CursorStarts(s: System, path: string)
    requires Good(s) && FreeDescriptor(s.open)
    requires Find(s, path).Some? && s.t[Find(s, path).value].kind == FOLDER
    ensures var (s', code, fd) := OpenNode(s, path, FOLDER);
      && code == VFS_OK && fd >= 0 && Good(s') && s'.v == s.v
      && Cursor(s', fd, Find(s, path).value, 0, |s'.v.sons[Find(s, path).value]|)
      && Grown(s, s', Find(s, path).value)
  {
    hide SlotOk, Find;
    GoodSizes(s);
    OpenTakesFree(s, path, FOLDER);
    OpenSucceeds(s, path, FOLDER);
    OpenGood(s, path, FOLDER);
    SonsInRange(s, Find(s, path).value);
    var n := Find(s, path).value;
    assert SonsOk(s.t, s.v.sons[n], {}, n);
  }

  lemma QuietCreate(s: System, path: string, name: string, kind: Kind, fd: nat, n: nat, got: nat, start: nat)
    requires Good(s) && Cursor(s, fd, n, got, start) && kind != EMPTY
    ensures Cursor(CreateNode(s, path, name, kind).0, fd, n, got, start)
    ensures Grown(s, CreateNode(s, path, name, kind).0, n)
  {
    hide Forest, SonsInTable, Find, FirstEmpty, OpenOk;
    GoodSizes(s);
    SonsInRange(s, n);
    var f, i := Find(s, path), FirstEmpty(s.t, 0);
    if f.Some? && i < FS_NPAGES {
      CreatedNames(s.t, s.v, i, f.value, name, kind, n);
    }
  }

  lemma SonsInRange(s: System, n: nat)
    requires Good(s) && n < FS_NPAGES
    ensures |s.t| == |s.v.sons| == FS_NPAGES && forall k :: 0 <= k < |s.v.sons[n]| ==> s.v.sons[n][k] < FS_NPAGES
  {
    hide SlotOk, SonsOk;
    GoodSizes(s);
  }

  lemma QuietDelete(s: System, path: string, fd: nat, n: nat, got: nat, start: nat)
    requires Good(s) && Cursor(s, fd, n, got, start) && Find(s, path) != Some(ROOT) && Quiet(s, Delete(path), fd, n)
    ensures Cursor(DeleteNode(s, path).0, fd, n, got, start)
    ensures Grown(s, DeleteNode(s, path).0, n)
  {
    hide Forest, SonsInTable, Find, OpenOk, Under, Deleted, DeletedView;
    GoodSizes(s);
    SonsInRange(s, n);
    StepGood(s, Delete(path));
    GoodSizes(DeleteNode(s, path).0);
    var m := Find(s, path);
    if m.Some? {
      DeleteOnly(s.t, s.v, m.value, n);
      DeletedNames(s.t, m.value);
    }
  }

  lemma QuietDescriptors(s: System, op: Op, fd: nat, n: nat, got: nat, start: nat)
    requires Good(s) && Enabled(s, op) && Cursor(s, fd, n, got, start) && Quiet(s, op, fd, n)
    requires op.Open? || op.Close? || op.Resize? || (op.Next? && op.fd != fd)
    ensures Cursor(Step(s, op), fd, n, got, start)
    ensures Grown(s, Step(s, op), n)
  {
    hide Forest, SonsInTable, Find;
    GoodSizes(s);
    SonsInRange(s, n);
  }

  /** One call of get_next_dir_son. */
  lemma ListOne(s: System, fd: nat, n: nat, got: nat, start: nat)
    requires Good(s) && Cursor(s, fd, n, got, start)
    ensures fd < MAX_OPEN_FILES && NextDirSon(s, fd).1 == VFS_OK && NextDirSon(s, fd).2 == fd
    ensures Grown(s, NextDirSon(s, fd).0, n)
    ensures s.open[fd].nextSon == NIL ==> NextDirSon(s, fd).3 == Some("") && NextDirSon(s, fd).0 == s
    ensures s.open[fd].nextSon != NIL ==>
      && got < |s.v.sons[n]| && s.v.sons[n][got] < |s.t|
      && NextDirSon(s, fd).3 == Some(s.t[s.v.sons[n][got]].name) && s.t[s.v.sons[n][got]].name != ""
      && Cursor(NextDirSon(s, fd).0, fd, n, got + 1, start)
  {
    GoodSizes(s);
    SonsInRange(s, n);
    assert SonsOk(s.t, s.v.sons[n], {}, n);
    if s.open[fd].nextSon != NIL {
      var son := s.v.sons[n][got];
      assert son in s.v.sons[n] && IsSon(s.t, {}, n, son);
      assert SlotOk(s.t, s.v.depth, son);
      assert s.t[s.v.sons[n][got]].brother == After(s.v.sons[n], got);
    }
  }

  lemma QuietStep(s: System, op: Op, fd: nat, n: nat, got: nat, start: nat)
    requires Good(s) && Enabled(s, op) && Cursor(s, fd, n, got, start) && Quiet(s, op, fd, n) && op != Next(fd)
    ensures Cursor(Step(s, op), fd, n, got, start) && Grown(s, Step(s, op), n)
  {
    hide Good, Find, Cursor, Grown, CreateNode, DeleteNode, OpenNode, CloseNode, NextDirSon, Under;
    match op
    case Create(path, name, kind) => QuietCreate(s, path, name, kind, fd, n, got, start);
    case Delete(path) => QuietDelete(s, path, fd, n, got, start);
    case _ => QuietDescriptors(s, op, fd, n, got, start);
  }

  lemma SameDescriptor(s: System, op: Op, fd: nat, n: nat, got: nat, start: nat)
    requires Good(s) && Enabled(s, op) && Cursor(s, fd, n, got, start) && Quiet(s, op, fd, n) && op != Next(fd)
    ensures fd < |s.open| == |Step(s, op).open| && Step(s, op).open[fd] == s.open[fd]
  {
    hide Forest, SonsInTable, Find;
    GoodSizes(s);
  }

  /** The names that the calls of get_next_dir_son on descriptor fd give during a run. */
  ghost function Listing(s: System, ops: seq<Op>, fd: nat): seq<string>
    requires Good(s) && CanRun(s, ops)
    decreases |ops|
  {
    if ops == [] then []
    else (if ops[0] == Next(fd) then [NextName(s, fd)] else []) + Listing(Advance(s, ops[0]), ops[1..], fd)
  }

  ghost function NextName(s: System, fd: nat): string
    requires Good(s) && Enabled(s, Next(fd))
  {
    match NextDirSon(s, fd).3
    case None => ""
    case Some(name) => name
  }

  ghost predicate QuietRun(s: System, ops: seq<Op>, fd: nat, n: nat)
    requires Good(s) && CanRun(s, ops)
    decreases |ops|
  {
    ops == [] || (Quiet(s, ops[0], fd, n) && QuietRun(Advance(s, ops[0]), ops[1..], fd, n))
  }

  lemma GrownTrans(a: System, b: System, c: System, n: nat)
    requires Grown(a, b, n) && Grown(b, c, n)
    ensures Grown(a, c, n)
  {
    forall k | 0 <= k < |a.v.sons[n]| ensures c.t[a.v.sons[n][k]].name == a.t[a.v.sons[n][k]].name {
      assert a.v.sons[n][k] == b.v.sons[n][k];
    }
  }

  ghost predicate IsName(s: System, i: nat, name: string) {
    i < |s.t| && s.t[i].name == name
  }

  /** What a listing gave: c names of sons in order, from the got-th on, then only empty ones,
      which come after all `start` sons. */
  ghost predicate Listed(s: System, n: nat, got: nat, start: nat, names: seq<string>, c: nat) {
    && |s.t| == |s.v.sons| == FS_NPAGES && n < FS_NPAGES
    && c <= |names| && got + c <= |s.v.sons[n]|
    && (forall k :: 0 <= k < c ==> names[k] != "" && IsName(s, s.v.sons[n][got + k], names[k]))
    && (forall k :: c <= k < |names| ==> names[k] == "")
    && (c < |names| ==> start <= got + c)
  }

  lemma ListedSon(s: System, s': System, n: nat, got: nat, start: nat, names: seq<string>, c: nat)
    requires Grown(s, s', n) && Listed(s', n, got + 1, start, names, c) && got < |s.v.sons[n]|
    requires s.v.sons[n][got] < |s.t| && s.t[s.v.sons[n][got]].name != ""
    ensures Listed(s', n, got, start, [s.t[s.v.sons[n][got]].name] + names, c + 1)
  {
    var i := s.v.sons[n][got];
    assert i == s'.v.sons[n][got];
    var all := [s.t[i].name] + names;
    forall k | 0 <= k < c + 1 ensures all[k] != "" && IsName(s', s'.v.sons[n][got + k], all[k]) {
      assert k > 0 ==> all[k] == names[k - 1] && s'.v.sons[n][got + k] == s'.v.sons[n][got + 1 + (k - 1)];
    }
    forall k | c + 1 <= k < |all| ensures all[k] == "" {
      assert all[k] == names[k - 1];
    }
  }

  lemma ListedNothing(s: System, n: nat, got: nat, start: nat, names: seq<string>)
    requires Listed(s, n, got, start, names, 0) && start <= got
    ensures Listed(s, n, got, start, [""] + names, 0)
  {
    forall k | 0 <= k < |[""] + names| ensures ([""] + names)[k] == "" {
      assert k > 0 ==> ([""] + names)[k] == names[k - 1];
    }
  }

  /** Every listing: whatever is created, opened, closed and written meanwhile, and whatever is
      deleted except the folder, its ancestors and its sons, the calls give the folder's sons in
      order, all that were there at the start before anything empty, and after an empty name
      only empty names. */
  lemma {:induction false} ListingRun(s: System, ops: seq<Op>, fd: nat, n: nat, got: nat, start: nat) returns (c: nat)
    requires Good(s) && CanRun(s, ops) && Cursor(s, fd, n, got, start) && QuietRun(s, ops, fd, n)
    ensures Grown(s, Run(s, ops), n) && Listed(Run(s, ops), n, got, start, Listing(s, ops, fd), c)
    ensures s.open[fd].nextSon == NIL ==> c == 0
    decreases |ops|
  {
    hide Good, Cursor, Grown, Listed, Quiet, Enabled, Step, NextDirSon;
    CursorSizes(s, fd, n, got, start);
    if ops == [] {
      SonsInRange(s, n);
      ListedAtStart(s, fd, n, got, start);
      c := 0;
    } else {
      var s1 := Advance(s, ops[0]);
      if ops[0] == Next(fd) {
        ListOne(s, fd, n, got, start);
        NextIsStep(s, fd);
        if s.open[fd].nextSon == NIL {
          c := ListingRun(s1, ops[1..], fd, n, got, start);
          ListedNothing(Run(s, ops), n, got, start, Listing(s1, ops[1..], fd));
        } else {
          c := ListingRun(s1, ops[1..], fd, n, got + 1, start);
          GrownTrans(s, s1, Run(s, ops), n);
          ListedSon(s, Run(s, ops), n, got, start, Listing(s1, ops[1..], fd), c);
          c := c + 1;
        }
      } else {
        QuietStep(s, ops[0], fd, n, got, start);
        SameDescriptor(s, ops[0], fd, n, got, start);
        c := ListingRun(s1, ops[1..], fd, n, got, start);
        GrownTrans(s, s1, Run(s, ops), n);
        assert [] + Listing(s1, ops[1..], fd) == Listing(s1, ops[1..], fd);
      }
    }
  }

  lemma CursorSizes(s: System, fd: nat, n: nat, got: nat, start: nat)
    requires Good(s) && Cursor(s, fd, n, got, start)
    ensures |s.t| == |s.v.sons| == FS_NPAGES && fd < |s.open| == MAX_OPEN_FILES && n < FS_NPAGES
    ensures s.open[fd].nextSon == NIL ==> start <= got
  {
    hide Forest;
    GoodSizes(s);
  }

  lemma ListedAtStart(s: System, fd: nat, n: nat, got: nat, start: nat)
    requires Good(s) && Cursor(s, fd, n, got, start)
    ensures Grown(s, s, n) && Listed(s, n, got, start, [], 0)
  {
    hide Forest;
    GoodSizes(s);
    SonsInRange(s, n);
  }

  lemma NextIsStep(s: System, fd: nat)
    requires Good(s) && fd < MAX_OPEN_FILES
    ensures Enabled(s, Next(fd)) && Step(s, Next(fd)) == NextDirSon(s, fd).0
    ensures NextDirSon(s, fd).3.Some? ==> NextName(s, fd) == NextDirSon(s, fd).3.value
  {
    hide Good, NextDirSon;
  }

  /** The state and the descriptor after a folder was opened. */
  ghost function Opened(s: System, path: string): (r: (System, nat))
    requires Good(s) && FreeDescriptor(s.open)
    requires Find(s, path).Some? && s.t[Find(s, path).value].kind == FOLDER
    ensures Good(r.0) && OpenNode(s, path, FOLDER) == (r.0, VFS_OK, r.1 as int)
  {
    CursorStarts(s, path);
    (OpenNode(s, path, FOLDER).0, OpenNode(s, path, FOLDER).2)
  }

  /** A whole listing of any folder that a path leads to, from its opening, when a descriptor is free. */
  lemma DirectoryListing(s: System, path: string, ops: seq<Op>) returns (c: nat)
    requires Good(s) && FreeDescriptor(s.open)
    requires Find(s, path).Some? && s.t[Find(s, path).value].kind == FOLDER
    requires CanRun(Opened(s, path).0, ops) && QuietRun(Opened(s, path).0, ops, Opened(s, path).1, Find(s, path).value)
    ensures var (s0, fd) := Opened(s, path);
      var n := Find(s, path).value;
      && Grown(s, Run(s0, ops), n) && Listed(Run(s0, ops), n, 0, |s.v.sons[n]|, Listing(s0, ops, fd), c)
  {
    hide Good, Cursor, Grown, Listed, Quiet, Enabled, Step, NextDirSon;
    var (s0, fd) := Opened(s, path);
    var n := Find(s, path).value;
    GoodSizes(s);
    CursorStarts(s, path);
    c := ListingRun(s0, ops, fd, n, 0, |s0.v.sons[n]|);
    GrownTrans(s, s0, Run(s0, ops), n);
  }
}
