/** What creation and deletion mean for whoever names nodes by paths. */
module VfsLaws {
  import opened Common
  import opened Inodes
  import opened InodeCreation
  import opened InodeDeletion
  import opened Paths
  import opened FsLaws
  import opened VfsOperations
  import opened VfsRuns

  /** Some slot is not reachable from the root. */
  ghost predicate Room(t: Table) {
    exists j: nat :: j < FS_NPAGES && !Under(t, ROOT, j)
  }

  lemma RoomIsFree(s: System)
    requires Good(s)
    ensures |s.t| == FS_NPAGES && (Room(s.t) <==> FirstEmpty(s.t, 0) < FS_NPAGES)
  {
    hide Forest, Under;
    GoodSizes(s);
    FullIsReachable(s.t, s.v);
  }

  lemma FindIsResolve(s: System, path: string)
    requires Good(s)
    ensures SonsInTable(s.t, s.v) && Find(s, path) == Resolve(s.t, s.v, path)
  {
    hide Forest, Resolve;
    GoodSizes(s);
  }

  /** A creation succeeds iff the name has 1 to 16 characters, the path leads to a folder and
      some slot is not reachable; otherwise nothing changes, and the code tells the first of these
      that fails. */
  lemma CreateSucceeds(s: System, path: string, name: string, kind: Kind)
    requires Good(s)
    ensures CreateNode(s, path, name, kind).1 == VFS_OK <==>
      1 <= |name| <= MAX_SIZE_NAME && Find(s, path).Some? && s.t[Find(s, path).value].kind == FOLDER && Room(s.t)
    ensures CreateNode(s, path, name, kind).1 != VFS_OK ==>
      && CreateNode(s, path, name, kind).0 == s
      && CreateNode(s, path, name, kind).1 ==
         if !(1 <= |name| <= MAX_SIZE_NAME) then VFS_INVALID_NAME
         else if Find(s, path) == None || s.t[Find(s, path).value].kind != FOLDER then VFS_INVALID_FD
         else VFS_MEMORY_FULL
  {
    hide Forest, Room, Find;
    GoodSizes(s);
    RoomIsFree(s);
  }

  /** A creation fills the first empty slot, adds it behind its folder's sons, and keeps every
      path that led somewhere; path/name leads to an elder son of that name, or to the new node. */
  lemma CreateResult(s: System, path: string, name: string, kind: Kind)
    requires Good(s) && kind != EMPTY && '\0' !in name && CreateNode(s, path, name, kind).1 == VFS_OK
    ensures var s', f, i := CreateNode(s, path, name, kind).0, Find(s, path), FirstEmpty(s.t, 0);
      && Good(s') && s'.open == s.open && f.Some? && i < FS_NPAGES == |s.t| == |s'.t| && SonsInTable(s.t, s.v)
      && f.value < |s.v.sons| && s'.v.sons == s.v.sons[f.value := s.v.sons[f.value] + [i]]
      && s.t[i].kind == EMPTY && s'.t[i] == s.t[i].(kind := kind, name := name, father := f.value)
      && (forall j :: 0 <= j < FS_NPAGES && j != i ==>
            s'.t[j] == s.t[j].(firstSon := s'.t[j].firstSon, brother := s'.t[j].brother))
      && (forall p: string :: Find(s, p).Some? ==> Find(s', p) == Find(s, p))
      && ('/' !in name ==>
            var elder := FindSon(s.t, s.v.sons[f.value], name);
            Find(s', path + "/" + name) == if elder.Some? then elder else Some(i))
  {
    hide Forest, Resolve, Find, FindSon, SonsInTable;
    GoodSizes(s);
    RoomIsFree(s);
    var s', f, i := CreateNode(s, path, name, kind).0, Find(s, path).value, FirstEmpty(s.t, 0);
    StepGood(s, Create(path, name, kind));
    forall p: string | Find(s, p).Some? ensures Find(s', p) == Find(s, p) {
      FindIsResolve(s, p);
      FindIsResolve(s', p);
      CreateKeepsPaths(s.t, s.v, i, f, name, kind, p);
    }
    if '/' !in name {
      FindIsResolve(s, path);
      FindIsResolve(s', path + "/" + name);
      NewResolves(s.t, s.v, i, f, name, kind, path);
    }
  }

  /** A deletion succeeds iff the path leads somewhere. Then exactly the nodes under that node are
      gone, no path leads to one of them, and every path that led elsewhere still does. */
  lemma DeleteResult(s: System, path: string)
    requires Good(s) && Find(s, path) != Some(ROOT)
    ensures DeleteNode(s, path).1 == VFS_OK <==> Find(s, path).Some?
    ensures DeleteNode(s, path).1 != VFS_OK ==> DeleteNode(s, path) == (s, VFS_INVALID_FD)
    ensures Find(s, path).Some? ==>
      var s', n := DeleteNode(s, path).0, Find(s, path).value;
      && Good(s') && s'.open == s.open && |s.t| == |s'.t| == FS_NPAGES
      && (forall j :: 0 <= j < FS_NPAGES ==> (s'.t[j].kind == EMPTY <==> s.t[j].kind == EMPTY || Under(s.t, n, j)))
      && (forall p: string :: Find(s', p).Some? ==> !Under(s.t, n, Find(s', p).value))
      && (forall p: string :: Find(s, p).Some? && !Under(s.t, n, Find(s, p).value) ==> Find(s', p) == Find(s, p))
  {
    hide Forest, Resolve, Find, SonsInTable, Under, Deleted, DeletedView;
    GoodSizes(s);
    if Find(s, path).Some? {
      var s', n := DeleteNode(s, path).0, Find(s, path).value;
      StepGood(s, Delete(path));
      GoodSizes(s');
      forall j | 0 <= j < FS_NPAGES
        ensures s'.t[j].kind == EMPTY <==> s.t[j].kind == EMPTY || Under(s.t, n, j)
      {
        DeleteOnly(s.t, s.v, n, j);
      }
      forall p: string
        ensures Find(s', p).Some? ==> !Under(s.t, n, Find(s', p).value)
        ensures Find(s, p).Some? && !Under(s.t, n, Find(s, p).value) ==> Find(s', p) == Find(s, p)
      {
        FindIsResolve(s, p);
        FindIsResolve(s', p);
        DeleteKeepsPaths(s.t, s.v, n, p);
      }
    }
  }

  /** Creating a new name and deleting it by its path undoes the creation, but for the name left
      in the slot (and its reference count, where that was not 0); so the next creation takes
      the same slot. */
  lemma CreateThenDeleteUndoes(s: System, path: string, name: string, kind: Kind)
    requires Good(s) && kind != EMPTY && '\0' !in name && '/' !in name
    requires CreateNode(s, path, name, kind).1 == VFS_OK
    requires SonsInTable(s.t, s.v) && Find(s, path).Some? && Find(s, path).value < |s.v.sons|
    requires FindSon(s.t, s.v.sons[Find(s, path).value], name) == None
    ensures var s1, i := CreateNode(s, path, name, kind).0, FirstEmpty(s.t, 0);
      && Good(s1) && i < |s.t| && Find(s1, path + "/" + name) == Some(i) && i != ROOT
      && var s2 := DeleteNode(s1, path + "/" + name).0;
      && s2.t == s.t[i := s.t[i].(name := name, ref := 0)] && s2.open == s.open && s2.v.sons == s.v.sons
      && FirstEmpty(s2.t, 0) == i
  {
    hide Forest, Resolve, Find, FindSon, SonsInTable, Created, CreatedView, Deleted, DeletedView, FirstEmpty;
    GoodSizes(s);
    RoomIsFree(s);
    CreateResult(s, path, name, kind);
    var s1, f, i := CreateNode(s, path, name, kind).0, Find(s, path).value, FirstEmpty(s.t, 0);
    RootLives(s);
    CreateThenDelete(s.t, s.v, i, f, name, kind);
    var s2 := DeleteNode(s1, path + "/" + name).0;
    StepGood(s1, Delete(path + "/" + name));
    SameTree(s, s2, i, name);
  }

  lemma RootLives(s: System)
    requires Good(s)
    ensures |s.t| == FS_NPAGES && s.t[ROOT].kind == FOLDER
  {
  }

  /** The sons of every folder are determined by the links. */
  lemma SameTree(s: System, s2: System, i: nat, name: string)
    requires Good(s) && Good(s2) && i < |s.t| && s.t[i].kind == EMPTY
    requires s2.t == s.t[i := s.t[i].(name := name, ref := 0)]
    ensures s2.v.sons == s.v.sons
  {
    hide SlotOk, SonsOk;
    forall g | 0 <= g < FS_NPAGES ensures s2.v.sons[g] == s.v.sons[g] {
      SameChain(s, s2, i, name, g);
    }
  }

  lemma SameChain(s: System, s2: System, i: nat, name: string, g: nat)
    requires Good(s) && Good(s2) && i < |s.t| && s.t[i].kind == EMPTY && g < FS_NPAGES
    requires s2.t == s.t[i := s.t[i].(name := name, ref := 0)]
    ensures |s.v.sons| == |s2.v.sons| == FS_NPAGES && s2.v.sons[g] == s.v.sons[g]
  {
    hide SlotOk;
    assert SonsOk(s.t, s.v.sons[g], {}, g) && SonsOk(s2.t, s2.v.sons[g], {}, g);
    assert Chain(s2.t, s2.t[g].firstSon, s.v.sons[g]);
    ChainUnique(s2.t, s2.t[g].firstSon, s.v.sons[g], s2.v.sons[g]);
  }

  // ----- A run that breaks a reference count

  lemma {:induction false} DescendSame(t: Table, t': Table, v: View, cur: nat, tokens: seq<string>)
    requires SonsInTable(t, v) && SonsInTable(t', v) && cur < FS_NPAGES
    requires forall i :: 0 <= i < FS_NPAGES ==> t'[i].name == t[i].name
    ensures Descend(t', v, cur, tokens) == Descend(t, v, cur, tokens)
    decreases |tokens|
  {
    if tokens != [] {
      FindSonSame(t, t', v.sons[cur], tokens[0]);
      var son := FindSon(t, v.sons[cur], tokens[0]);
      if son.Some? {
        DescendSame(t, t', v, son.value, tokens[1..]);
      }
    }
  }

  lemma {:induction false} FindSonSame(t: Table, t': Table, sons: seq<nat>, name: string)
    requires forall k :: 0 <= k < |sons| ==> sons[k] < |t| && sons[k] < |t'| && t'[sons[k]].name == t[sons[k]].name
    ensures FindSon(t', sons, name) == FindSon(t, sons, name)
  {
    if sons != [] {
      FindSonSame(t, t', sons[1..], name);
    }
  }

  /** An opening changes where no path leads. */
  lemma OpenKeepsPaths(s: System, path: string, kind: Kind, p: string)
    requires Good(s) && Good(OpenNode(s, path, kind).0)
    ensures Find(OpenNode(s, path, kind).0, p) == Find(s, p)
  {
    hide Forest, Find, Tokens, Descend, Trailing;
    var s' := OpenNode(s, path, kind).0;
    GoodSizes(s);
    GoodSizes(s');
    FindIsResolve(s, p);
    FindIsResolve(s', p);
    if p != "" {
      DescendSame(s.t, s'.t, s.v, ROOT, Tokens(p[1..]));
    }
  }

  /** Opening a file and deleting it leaves a descriptor that no reference count accounts for. */
  lemma OpenThenDelete(s: System, path: string)
    requires Good(s) && RefsOk(s) && Find(s, path).Some? && Find(s, path) != Some(ROOT)
    requires s.t[Find(s, path).value].kind == FILE && NextFd(s.open, 0) < MAX_OPEN_FILES
    ensures var s1 := OpenNode(s, path, FILE).0;
      && Good(s1) && RefsOk(s1) && Find(s1, path) == Find(s, path)
      && !RefsOk(DeleteNode(s1, path).0)
  {
    hide Forest, Find, SonsInTable, RefsOk, Under;
    GoodSizes(s);
    OpenGood(s, path, FILE);
    OpenKeepsPaths(s, path, FILE, path);
    OpenTakesFree(s, path, FILE);
    StepRefs(s, Open(path, FILE));
    var s1, fd := OpenNode(s, path, FILE).0, NextFd(s.open, 0);
    SelfUnder(s1.t, Find(s, path).value);
    assert s1.open[fd].inode == Find(s, path).value;
    StepRefs(s1, Delete(path));
  }

  /** The state of the constructor of Vfs. */
  ghost predicate JustBooted(s: System) {
    && Good(s) && RefsOk(s)
    && (forall i :: 0 < i < |s.t| ==> s.t[i].kind == EMPTY) && |s.v.sons| == FS_NPAGES && s.v.sons[ROOT] == []
    && (forall k :: 0 <= k < |s.open| ==> s.open[k].inode == NIL)
  }

  lemma RunThree(s: System, a: Op, b: Op, c: Op)
    requires Good(s) && Enabled(s, a) && Enabled(Advance(s, a), b) && Enabled(Advance(Advance(s, a), b), c)
    ensures CanRun(s, [a, b, c]) && Run(s, [a, b, c]) == Advance(Advance(Advance(s, a), b), c)
  {
    hide Good, Enabled, Step;
    assert [a, b, c][1..] == [b, c] && [b, c][1..] == [c] && [c][1..] == [];
    var s1, s2 := Advance(s, a), Advance(Advance(s, a), b);
    assert CanRun(Advance(s2, c), []) && CanRun(s2, [c]) && CanRun(s1, [b, c]);
    assert Run(s2, [c]) == Run(Advance(s2, c), []);
    assert Run(s1, [b, c]) == Run(s2, [c]);
  }

  /** From boot: create a file, open it, delete it. Its slot is empty with reference count 0, and
      a descriptor is still open on it. */
  lemma RefsCanBreak(s: System)
    requires JustBooted(s)
    ensures var ops := [Create("/", "a", FILE), Open("//a", FILE), Delete("//a")];
      CanRun(s, ops) && !RefsOk(Run(s, ops))
  {
    hide Forest, Find, SonsInTable, RefsOk, Room, Under, CreateNode, OpenNode, DeleteNode;
    GoodSizes(s);
    RootLives(s);
    RootPath(s, "/");
    FirstFree(s);
    CreateSucceeds(s, "/", "a", FILE);
    CreateResult(s, "/", "a", FILE);
    var s1 := CreateNode(s, "/", "a", FILE).0;
    assert "/" + "/" + "a" == "//a";
    StepRefs(s, Create("/", "a", FILE));
    OpenThenDelete(s1, "//a");
    OpenTakesFree(s1, "//a", FILE);
    RunThree(s, Create("/", "a", FILE), Open("//a", FILE), Delete("//a"));
  }

  lemma FirstFree(s: System)
    requires JustBooted(s)
    ensures |s.t| == FS_NPAGES && FirstEmpty(s.t, 0) == 1 && Room(s.t) && NextFd(s.open, 0) == 0
    ensures |s.v.sons| == FS_NPAGES && SonsInTable(s.t, s.v) && FindSon(s.t, s.v.sons[ROOT], "a") == None
  {
    hide Forest, Under;
    GoodSizes(s);
    RootLives(s);
    RoomIsFree(s);
    assert FirstEmpty(s.t, 0) == FirstEmpty(s.t, 1) == 1;
  }
}
