/** The inode table of filesystem.c: a forest of first-son / next-brother / father links in a
    fixed table. Pointers into the table are indices; NIL is the null pointer. */
module Inodes {

  const FS_NPAGES: nat := 128
  const FILE_MAX_SIZE: nat := 4096
  const MAX_SIZE_NAME: nat := 16
  const ROOT: nat := 0
  const NIL: int := -1

  datatype Kind = FILE | FOLDER | EMPTY

  datatype Inode = Inode(kind: Kind, name: string, father: int, brother: int, firstSon: int, size: nat, ref: int)

  type Table = seq<Inode>

  predicate InTable(p: int) {
    0 <= p < FS_NPAGES
  }

  predicate Live(t: Table, i: int) {
    InTable(i) && i < |t| && t[i].kind != EMPTY
  }

  // ----- Chains and the forest

  /** Following brother links from head visits exactly s, in order. */
  ghost predicate Chain(t: Table, head: int, s: seq<nat>) {
    && |t| == FS_NPAGES
    && (forall k :: 0 <= k < |s| ==> s[k] < FS_NPAGES)
    && head == First(s)
    && (forall k :: 0 <= k < |s| ==> t[s[k]].brother == After(s, k))
  }

  function First(s: seq<nat>): int {
    if s == [] then NIL else s[0]
  }

  function After(s: seq<nat>, k: nat): int {
    if k + 1 < |s| then s[k + 1] else NIL
  }

  predicate NoRepeats(s: seq<nat>) {
    forall j, k :: 0 <= j < k < |s| ==> s[j] != s[k]
  }

  /** The ghost view of the table: each slot's sons in order, and its distance from the root. */
  datatype View = View(sons: seq<seq<nat>>, depth: seq<nat>)

  /** The links of one folder's sons. */
  ghost predicate SonsOk(t: Table, sons: seq<nat>, detached: set<nat>, i: nat) {
    && |t| == FS_NPAGES && i < |t|
    && Chain(t, t[i].firstSon, sons)
    && NoRepeats(sons)
    && (forall j: nat :: j in sons <==> IsSon(t, detached, i, j))
  }

  ghost predicate IsSon(t: Table, detached: set<nat>, i: nat, j: nat) {
    Live(t, j) && j != ROOT && t[j].father == i && j !in detached
  }

  /** One slot: a live node has a live folder as father, one step up; a file has no sons; an
      empty slot is unlinked and cleared. */
  ghost predicate SlotOk(t: Table, depth: seq<nat>, j: nat) {
    && |t| == |depth| == FS_NPAGES && j < |t|
    && |t[j].name| <= MAX_SIZE_NAME && '\0' !in t[j].name
    && match t[j].kind
       case EMPTY =>
         t[j].father == t[j].brother == t[j].firstSon == NIL && t[j].size == 0
       case _ =>
         && (t[j].kind == FILE ==> t[j].firstSon == NIL)
         && (j != ROOT ==>
               && t[j].name != ""
               && Live(t, t[j].father) && t[t[j].father].kind == FOLDER
               && depth[j] == depth[t[j].father] + 1)
  }

  /** A well-formed forest. The nodes of `detached` still know their fathers but have been
      taken out of their fathers' chains; between calls there are none. */
  ghost predicate Forest(t: Table, v: View, detached: set<nat>) {
    && |t| == |v.sons| == |v.depth| == FS_NPAGES
    && t[ROOT].kind == FOLDER && t[ROOT].father == NIL && t[ROOT].brother == NIL
    && (forall j :: 0 <= j < FS_NPAGES ==> SlotOk(t, v.depth, j))
    && (forall i :: 0 <= i < FS_NPAGES ==> SonsOk(t, v.sons[i], detached, i))
  }

  // ----- The view is determined by the table

  lemma {:induction false} ChainUnique(t: Table, head: int, a: seq<nat>, b: seq<nat>)
    requires Chain(t, head, a) && Chain(t, head, b)
    ensures a == b
    decreases |a|
  {
    hide Chain;
    ChainHead(t, head, a);
    ChainHead(t, head, b);
    if a != [] {
      ChainTail(t, a);
      ChainTail(t, b);
      ChainUnique(t, t[a[0]].brother, a[1..], b[1..]);
      assert a == [a[0]] + a[1..] && b == [b[0]] + b[1..];
    }
  }

  lemma ChainHead(t: Table, head: int, s: seq<nat>)
    requires Chain(t, head, s)
    ensures |t| == FS_NPAGES && (s == [] <==> head == NIL) && (s != [] ==> head == s[0] && s[0] < FS_NPAGES)
  {
  }

  lemma ChainTail(t: Table, s: seq<nat>)
    requires s != [] && Chain(t, s[0], s)
    ensures Chain(t, t[s[0]].brother, s[1..])
  {
    assert forall k :: 0 <= k < |s| - 1 ==> s[1..][k] == s[k + 1] && After(s[1..], k) == After(s, k + 1);
  }

  /** The son lists of a well-formed table are unique. */
  lemma SonsUnique(t: Table, v: View, v': View, detached: set<nat>)
    requires Forest(t, v, detached) && Forest(t, v', detached)
    ensures v.sons == v'.sons
  {
    forall i | 0 <= i < FS_NPAGES ensures v.sons[i] == v'.sons[i] {
      assert SonsOk(t, v.sons[i], detached, i) && SonsOk(t, v'.sons[i], detached, i);
      ChainUnique(t, t[i].firstSon, v.sons[i], v'.sons[i]);
    }
  }

  // ----- Reachability from the root

  /** The node k father links above j. */
  function Up(t: Table, j: int, k: nat): int {
    if k == 0 then j
    else
      var f := Up(t, j, k - 1);
      if InTable(f) && f < |t| then t[f].father else NIL
  }

  /** n is j or an ancestor of j. */
  ghost predicate Under(t: Table, n: nat, j: nat) {
    exists k: nat :: Up(t, j, k) == n
  }

  lemma {:induction false} UpShift(t: Table, j: nat, k: nat)
    requires j < |t| == FS_NPAGES
    ensures Up(t, j, k + 1) == Up(t, t[j].father, k)
  {
    if k > 0 {
      UpShift(t, j, k - 1);
    }
  }

  lemma {:induction false} UpNegative(t: Table, f: int, k: nat)
    requires f < 0
    ensures Up(t, f, k) < 0
  {
    if k > 0 {
      UpNegative(t, f, k - 1);
    }
  }

  /** Being under a node passes through the father. */
  lemma UnderStep(t: Table, n: nat, j: nat)
    requires |t| == FS_NPAGES && j < FS_NPAGES && j != n
    ensures Under(t, n, j) <==> t[j].father >= 0 && Under(t, n, t[j].father)
  {
    var f := t[j].father;
    if Under(t, n, j) {
      var k: nat :| Up(t, j, k) == n;
      UpShift(t, j, k - 1);
      if f < 0 {
        UpNegative(t, f, k - 1);
      }
      assert Up(t, f, k - 1) == n;
    }
    if f >= 0 && Under(t, n, f) {
      var k: nat :| Up(t, f, k) == n;
      UpShift(t, j, k);
    }
  }

  /** A slot is live iff it is reachable from the root. */
  lemma {:induction false} LiveIsReachable(t: Table, v: View, j: nat)
    requires Forest(t, v, {}) && j < FS_NPAGES
    ensures t[j].kind != EMPTY <==> Under(t, ROOT, j)
    decreases v.depth[j]
  {
    assert SlotOk(t, v.depth, j);
    if j == ROOT {
      assert Up(t, ROOT, 0) == ROOT;
    } else {
      UnderStep(t, ROOT, j);
      if t[j].kind != EMPTY {
        LiveIsReachable(t, v, t[j].father);
      }
    }
  }
}
