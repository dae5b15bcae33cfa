/** The inode table as filesystem.c and the delete_inode of vfs.c update it. */
module RamFs {
  import opened Inodes
  import opened InodeCreation
  import opened InodeDeletion

  // ----- Freeing a node without sons

  /** No live node has n as its father. */
  ghost predicate NothingBelow(t: Table, n: nat) {
    forall j: nat :: Live(t, j) && j != ROOT ==> t[j].father != n
  }

  /** The nodes detached so far are no deeper than n. */
  ghost predicate AllAbove(v: View, d: set<nat>, n: nat) {
    n < |v.depth| && forall x: nat :: x in d ==> x < |v.depth| && v.depth[x] <= v.depth[n]
  }

  lemma LeafSubtree(t: Table, v: View, d: set<nat>, n: nat)
    requires Forest(t, v, d) && Live(t, n) && NothingBelow(t, n)
    ensures Subtree(t, n) == {n}
  {
    SubtreeClosed(t, v, d, n);
    forall j | j in Subtree(t, n) ensures j == n {
      if j != n {
        SubtreeBySons(t, v, d, n, j);
      }
    }
  }

  /** Clearing a detached node without sons keeps the forest. */
  lemma ClearLeaf(t: Table, v: View, d: set<nat>, n: nat)
    requires Forest(t, v, d) && Live(t, n) && n != ROOT && n in d && NothingBelow(t, n)
    ensures Forest(ClearAll(t, {n}), ClearedView(v, {n}), d - {n})
  {
    ClearKeeps(t, v, d, {n}, n);
  }

  // ----- The state of delete_inode between two turns of its loop

  /** All slots under the nodes of s. */
  ghost function SubtreesOf(t: Table, s: seq<nat>): set<nat> {
    set j | 0 <= j < FS_NPAGES && UnderSome(t, s, j)
  }

  ghost predicate UnderSome(t: Table, s: seq<nat>, j: nat) {
    exists k :: 0 <= k < |s| && Under(t, s[k], j)
  }

  /** The first m sons of n are gone, with all below them, and n leads to the next. */
  ghost function Progress(t: Table, v: View, n: nat, m: nat): (t': Table)
    requires n < |t| && n < |v.sons| && m <= |v.sons[n]|
    ensures |t'| == |t|
  {
    var cleared := ClearAll(t, SubtreesOf(t, v.sons[n][..m]));
    cleared[n := cleared[n].(firstSon := First(v.sons[n][m..]))]
  }

  ghost function ProgressView(t: Table, v: View, n: nat, m: nat): View
    requires n < |v.sons| && m <= |v.sons[n]|
  {
    ClearedView(View(v.sons[n := v.sons[n][m..]], v.depth), SubtreesOf(t, v.sons[n][..m]))
  }

  /** Tables with the same fathers have the same subtrees. */
  lemma {:induction false} SameFathers(t: Table, t': Table, n: nat, j: int, k: nat)
    requires |t| == |t'| && forall i :: 0 <= i < |t| ==> t[i].father == t'[i].father
    ensures Up(t, j, k) == Up(t', j, k)
  {
    if k > 0 {
      SameFathers(t, t', n, j, k - 1);
    }
  }

  lemma SameUnder(t: Table, t': Table, n: nat, j: nat)
    requires |t| == |t'| && forall i :: 0 <= i < |t| ==> t[i].father == t'[i].father
    ensures Under(t, n, j) <==> Under(t', n, j)
  {
    if Under(t, n, j) {
      var k: nat :| Up(t, j, k) == n;
      SameFathers(t, t', n, j, k);
    }
    if Under(t', n, j) {
      var k: nat :| Up(t', j, k) == n;
      SameFathers(t, t', n, j, k);
    }
  }

  /** The sons of a folder, as nodes. */
  lemma SonsAreNodes(t: Table, v: View, d: set<nat>, n: nat, k: nat)
    requires Forest(t, v, d) && n < FS_NPAGES && k < |v.sons[n]|
    ensures var c := v.sons[n][k];
      Live(t, c) && c != ROOT && t[c].father == n && c !in d && c != n && v.depth[c] == v.depth[n] + 1
  {
    var c := v.sons[n][k];
    assert SonsOk(t, v.sons[n], d, n);
    assert c in v.sons[n] && IsSon(t, d, n, c);
    assert SlotOk(t, v.depth, c);
  }

  /** The subtrees of some of n's sons: live nodes, closed, without n and without other sons. */
  lemma SonSubtrees(t: Table, v: View, d: set<nat>, n: nat, m: nat)
    requires Forest(t, v, d) && Live(t, n) && m <= |v.sons[n]|
    ensures var r := SubtreesOf(t, v.sons[n][..m]);
      && Closed(t, r) && n !in r && ROOT !in r
      && (forall j :: j in r ==> Live(t, j))
      && (forall k :: m <= k < |v.sons[n]| ==> v.sons[n][k] !in r)
  {
    var s := v.sons[n];
    var r := SubtreesOf(t, s[..m]);
    assert SonsOk(t, s, d, n);
    forall k | 0 <= k < |s| ensures Live(t, s[k]) && s[k] != ROOT && s[k] != n && v.depth[s[k]] == v.depth[n] + 1 {
      SonsAreNodes(t, v, d, n, k);
    }
    forall j | j in r ensures Live(t, j) && j != n && j != ROOT {
      var k :| 0 <= k < m && Under(t, s[..m][k], j);
      SubtreeClosed(t, v, d, s[k]);
      assert j in Subtree(t, s[k]);
      UnderDeeper(t, v, d, s[k], j);
    }
    forall j: nat | Live(t, j) && j != ROOT && t[j].father >= 0 && t[j].father in r ensures j in r {
      var k :| 0 <= k < m && Under(t, s[..m][k], t[j].father);
      if j != s[k] {
        UnderStep(t, s[k], j);
      } else {
        SelfUnder(t, j);
      }
      assert Under(t, s[..m][k], j);
    }
    forall k | m <= k < |s| ensures s[k] !in r {
      if s[k] in r {
        var k' :| 0 <= k' < m && Under(t, s[..m][k'], s[k]);
        UnderDeeper(t, v, d, s[k'], s[k]);
        assert false;
      }
    }
  }

  /** One more son: what the recursive call clears is the son's original subtree. */
  lemma SonSubtreeNow(t: Table, v: View, d: set<nat>, n: nat, m: nat, j: nat)
    requires Forest(t, v, d) && Live(t, n) && m < |v.sons[n]| && j < FS_NPAGES
    ensures Under(Progress(t, v, n, m), v.sons[n][m], j) <==> Under(t, v.sons[n][m], j)
    ensures Under(t, v.sons[n][m], j) ==> j !in SubtreesOf(t, v.sons[n][..m])
  {
    var s, c := v.sons[n], v.sons[n][m];
    var r := SubtreesOf(t, s[..m]);
    SonSubtrees(t, v, d, n, m);
    SonsAreNodes(t, v, d, n, m);
    UnderCleared(t, v, d, r, c, j);
    SameUnder(ClearAll(t, r), Progress(t, v, n, m), c, j);
    if Under(t, c, j) && j in r {
      assert UnderSome(t, s[..m], j);
      var k :| 0 <= k < m && Under(t, s[..m][k], j);
      SonsAreNodes(t, v, d, n, k);
      assert SonsOk(t, s, d, n);
      Disjoint(t, v, d, s[k], c, j);
      assert false;
    }
  }

  lemma ProgressStart(t: Table, v: View, d: set<nat>, n: nat)
    requires Forest(t, v, d) && n < FS_NPAGES
    ensures Progress(t, v, n, 0) == t && ProgressView(t, v, n, 0) == v
  {
    var s := v.sons[n];
    assert SonsOk(t, s, d, n);
    assert s[..0] == [] && s[0..] == s;
    assert SubtreesOf(t, []) == {};
    assert v.sons[n := s[0..]] == v.sons;
    assert ProgressView(t, v, n, 0).sons == v.sons;
  }

  /** The subtree of the next son when its turn comes. */
  lemma NextSubtree(t: Table, v: View, d: set<nat>, n: nat, m: nat, a: Table)
    requires Forest(t, v, d) && Live(t, n) && m < |v.sons[n]|
    requires |a| == FS_NPAGES && forall i :: 0 <= i < FS_NPAGES ==> a[i].father == Progress(t, v, n, m)[i].father
    ensures Subtree(a, v.sons[n][m]) == Subtree(t, v.sons[n][m])
    ensures Subtree(t, v.sons[n][m]) !! SubtreesOf(t, v.sons[n][..m])
    ensures SubtreesOf(t, v.sons[n][..m + 1]) == SubtreesOf(t, v.sons[n][..m]) + Subtree(t, v.sons[n][m])
    ensures n !in Subtree(t, v.sons[n][m])
  {
    hide Under, Up, Progress, Forest;
    Sizes(t, v, d);
    var s, c := v.sons[n], v.sons[n][m];
    forall j: nat | j < FS_NPAGES
      ensures Under(a, c, j) <==> Under(t, c, j)
      ensures Under(t, c, j) ==> j !in SubtreesOf(t, s[..m])
    {
      SonSubtreeNow(t, v, d, n, m, j);
      SameUnder(a, Progress(t, v, n, m), c, j);
    }
    forall j: nat | j < FS_NPAGES ensures UnderSome(t, s[..m + 1], j) <==> UnderSome(t, s[..m], j) || Under(t, c, j) {
      if UnderSome(t, s[..m], j) {
        var k :| 0 <= k < m && Under(t, s[..m][k], j);
        assert s[..m + 1][k] == s[..m][k];
      }
      if Under(t, c, j) {
        assert s[..m + 1][m] == c;
      }
      if UnderSome(t, s[..m + 1], j) {
        var k :| 0 <= k < m + 1 && Under(t, s[..m + 1][k], j);
        assert k < m ==> s[..m][k] == s[..m + 1][k];
      }
    }
    SonSubtrees(t, v, d, n, m + 1);
  }

  /** One turn of the loop: the recursive call on the detached son brings Progress one further. */
  lemma ProgressStep(t: Table, v: View, d: set<nat>, n: nat, m: nat)
    requires Forest(t, v, d) && n < FS_NPAGES && Live(t, n) && m < |v.sons[n]|
    requires Forest(Progress(t, v, n, m), ProgressView(t, v, n, m), d)
    ensures var p, pv, c := Progress(t, v, n, m), ProgressView(t, v, n, m), v.sons[n][m];
      && pv.sons[n] == v.sons[n][m..] && InTable(p[n].firstSon) && p[n].firstSon == c
      && Forest(Advanced(p, n), AdvancedView(pv, n), d + {c}) && Live(Advanced(p, n), c) && c != ROOT && c !in d
      && pv.depth == v.depth
      && ClearAll(Advanced(p, n), Subtree(Advanced(p, n), c)) == Progress(t, v, n, m + 1)
      && ClearedView(AdvancedView(pv, n), Subtree(Advanced(p, n), c)) == ProgressView(t, v, n, m + 1)
  {
    hide *;
    Sizes(t, v, d);
    SonsAreNodes(t, v, d, n, m);
    ProgressFacts(t, v, d, n, m);
    var p, pv, c := Progress(t, v, n, m), ProgressView(t, v, n, m), v.sons[n][m];
    AdvanceKeeps(p, pv, d, n);
    var a := Advanced(p, n);
    SameAdvanced(p, n);
    NextSubtree(t, v, d, n, m, a);
    SonSubtrees(t, v, d, n, m);
    StepTables(t, v, n, m, SubtreesOf(t, v.sons[n][..m]), Subtree(t, c));
    assert Live(a, c);
  }

  lemma SameAdvanced(p: Table, n: nat)
    requires |p| == FS_NPAGES && n < FS_NPAGES && InTable(p[n].firstSon)
    ensures forall i :: 0 <= i < FS_NPAGES ==> Advanced(p, n)[i].father == p[i].father
    ensures forall i: nat :: Live(Advanced(p, n), i) <==> Live(p, i)
    ensures InTable(p[n].firstSon)
  {
  }

  lemma ProgressFacts(t: Table, v: View, d: set<nat>, n: nat, m: nat)
    requires Forest(t, v, d) && Live(t, n) && m < |v.sons[n]|
    ensures var p, pv, c := Progress(t, v, n, m), ProgressView(t, v, n, m), v.sons[n][m];
      && |p| == FS_NPAGES == |pv.sons| && pv.depth == v.depth
      && pv.sons[n] == v.sons[n][m..] && pv.sons[n] != [] && pv.sons[n][0] == c
      && t[c].brother == First(v.sons[n][m + 1..])
  {
    hide SlotOk;
    SonSubtrees(t, v, d, n, m);
    assert SonsOk(t, v.sons[n], d, n);
    assert t[v.sons[n][m]].brother == After(v.sons[n], m);
  }

  lemma Sizes(t: Table, v: View, d: set<nat>)
    requires Forest(t, v, d)
    ensures |t| == |v.sons| == |v.depth| == FS_NPAGES
  {
  }

  lemma StepTables(t: Table, v: View, n: nat, m: nat, r: set<nat>, more: set<nat>)
    requires n < |t| == |v.sons| == FS_NPAGES && m < |v.sons[n]| && v.sons[n][m] < FS_NPAGES
    requires n !in r && n !in more && r !! more && v.sons[n][m] !in r && v.sons[n][m] != n
    requires r == SubtreesOf(t, v.sons[n][..m]) && r + more == SubtreesOf(t, v.sons[n][..m + 1])
    requires InTable(Progress(t, v, n, m)[n].firstSon)
    requires t[v.sons[n][m]].brother == First(v.sons[n][m + 1..])
    ensures ClearAll(Advanced(Progress(t, v, n, m), n), more) == Progress(t, v, n, m + 1)
    ensures ProgressView(t, v, n, m).sons[n] != []
    ensures ClearedView(AdvancedView(ProgressView(t, v, n, m), n), more) == ProgressView(t, v, n, m + 1)
  {
    hide SubtreesOf;
    var p, p' := Progress(t, v, n, m), Progress(t, v, n, m + 1);
    var pv, pv' := ProgressView(t, v, n, m), ProgressView(t, v, n, m + 1);
    assert v.sons[n][m..][1..] == v.sons[n][m + 1..];
    assert ClearAll(Advanced(p, n), more) == p';
    assert ClearedView(AdvancedView(pv, n), more).sons == pv'.sons;
  }

  // ----- The end of delete_inode

  /** What free_inode makes of the table. */
  ghost function Freed(t: Table, n: nat, attached: bool): (t': Table)
    requires n < |t|
    ensures |t'| == |t|
  {
    ClearAll(if attached then Unlinked(t, n) else t, {n})
  }

  ghost function DetachedView(t: Table, v: View, n: nat, attached: bool): View
    requires n < |t| && (attached ==> 0 <= t[n].father < |v.sons|)
  {
    if attached then UnlinkedView(v, t[n].father, n) else v
  }

  /** free_inode on a node with nothing below it keeps the forest. */
  lemma FreedKeeps(t: Table, v: View, d: set<nat>, n: nat, attached: bool)
    requires Forest(t, v, d) && n < FS_NPAGES && Live(t, n) && n != ROOT && NothingBelow(t, n)
    requires if attached then d == {} else n in d
    ensures |t| == FS_NPAGES == |v.sons| && InTable(t[n].father)
    ensures Forest(Freed(t, n, attached), ClearedView(DetachedView(t, v, n, attached), {n}), d - {n})
  {
    hide SonsOk;
    assert SlotOk(t, v.depth, n);
    if attached {
      UnlinkKeeps(t, v, n);
      ClearLeaf(Unlinked(t, n), UnlinkedView(v, t[n].father, n), {n}, n);
      assert {n} - {n} == d - {n};
    } else {
      ClearLeaf(t, v, d, n);
    }
  }

  /** All sons gone: the node leads nowhere, nothing is below it, and its subtree is itself and
      what was cleared. */
  lemma ProgressEnd(t: Table, v: View, d: set<nat>, n: nat)
    requires Forest(t, v, d) && n < FS_NPAGES && Live(t, n) && AllAbove(v, d, n)
    ensures var m, p := |v.sons[n]|, Progress(t, v, n, |v.sons[n]|);
      && p[n] == t[n].(firstSon := NIL) && Live(p, n) && NothingBelow(p, n)
      && SubtreesOf(t, v.sons[n][..m]) + {n} == Subtree(t, n) && n !in SubtreesOf(t, v.sons[n][..m])
  {
    hide Forest, Under, SubtreesOf, Subtree, IsSon;
    Sizes(t, v, d);
    var s := v.sons[n];
    assert s[..|s|] == s && s[|s|..] == [];
    SonSubtrees(t, v, d, n, |s|);
    SubtreeClosed(t, v, d, n);
    AllSubtrees(t, v, d, n);
    SonsCleared(t, v, d, n);
  }

  /** Every son of n is in its list, so it is in the subtrees of the list. */
  lemma SonsCleared(t: Table, v: View, d: set<nat>, n: nat)
    requires Forest(t, v, d) && n < FS_NPAGES && Live(t, n) && AllAbove(v, d, n)
    ensures forall j: nat :: Live(t, j) && j != ROOT && t[j].father == n ==>
      j in v.sons[n] && j in SubtreesOf(t, v.sons[n])
  {
    hide SubtreesOf, Under;
    var s := v.sons[n];
    assert SonsOk(t, s, d, n);
    forall j: nat | Live(t, j) && j != ROOT && t[j].father == n ensures j in s && j in SubtreesOf(t, s) {
      assert SlotOk(t, v.depth, j);
      assert IsSon(t, d, n, j);
      var k :| 0 <= k < |s| && s[k] == j;
      InSubtrees(t, s, k, j);
    }
  }

  lemma InSubtrees(t: Table, s: seq<nat>, k: nat, j: nat)
    requires k < |s| && j < FS_NPAGES && (s[k] == j || Under(t, s[k], j))
    ensures j in SubtreesOf(t, s)
  {
    SelfUnder(t, j);
    assert UnderSome(t, s, j);
  }

  lemma AllSubtrees(t: Table, v: View, d: set<nat>, n: nat)
    requires Forest(t, v, d) && n < FS_NPAGES && Live(t, n) && AllAbove(v, d, n)
    ensures SubtreesOf(t, v.sons[n]) + {n} == Subtree(t, n)
  {
    hide SubtreesOf, Under, Forest;
    Sizes(t, v, d);
    var s := v.sons[n];
    SubtreeClosed(t, v, d, n);
    SonsCleared(t, v, d, n);
    forall j | j in Subtree(t, n) && j != n ensures j in SubtreesOf(t, s) {
      SubtreeBySons(t, v, d, n, j);
      var c: nat :| Live(t, c) && c != ROOT && t[c].father == n && Under(t, c, j);
      var k :| 0 <= k < |s| && s[k] == c;
      InSubtrees(t, s, k, j);
    }
    forall j | j in SubtreesOf(t, s) ensures j in Subtree(t, n) {
      var k := SubtreeOf(t, s, j);
      SonsAreNodes(t, v, d, n, k);
      UnderTrans(t, n, s[k], j);
    }
  }

  lemma SubtreeOf(t: Table, s: seq<nat>, j: nat) returns (k: nat)
    requires j in SubtreesOf(t, s)
    ensures k < |s| && Under(t, s[k], j) && j < FS_NPAGES
  {
    assert UnderSome(t, s, j);
    k :| 0 <= k < |s| && Under(t, s[k], j);
  }

  /** A node under a son is under the father. */
  lemma UnderTrans(t: Table, n: nat, c: nat, j: nat)
    requires |t| == FS_NPAGES && c < FS_NPAGES && t[c].father == n && Under(t, c, j)
    ensures Under(t, n, j)
  {
    var k: nat :| Up(t, j, k) == c;
    assert Up(t, j, k + 1) == n;
  }

  /** Freeing the node after its sons gives the specified result. */
  lemma FreedIsDeleted(t: Table, v: View, d: set<nat>, n: nat, attached: bool)
    requires Forest(t, v, d) && n < FS_NPAGES && Live(t, n) && n != ROOT && AllAbove(v, d, n)
    requires if attached then d == {} else n in d
    ensures Freed(Progress(t, v, n, |v.sons[n]|), n, attached) == Deleted(t, n, attached)
    ensures InTable(t[n].father) && t[n].father < |v.sons| && Progress(t, v, n, |v.sons[n]|)[n].father == t[n].father
    ensures t[n].father !in Subtree(t, n)
    ensures ClearedView(
              DetachedView(Progress(t, v, n, |v.sons[n]|), ProgressView(t, v, n, |v.sons[n]|), n, attached), {n})
         == ClearedView(DetachedView(t, v, n, attached), Subtree(t, n))
  {
    hide Forest, Under, SubtreesOf, Subtree, NothingBelow;
    Sizes(t, v, d);
    ProgressEnd(t, v, d, n);
    FatherOutside(t, v, d, n);
    var m := |v.sons[n]|;
    FreedTables(t, v, n, SubtreesOf(t, v.sons[n][..m]), Subtree(t, n), attached);
  }

  lemma FatherOutside(t: Table, v: View, d: set<nat>, n: nat)
    requires Forest(t, v, d) && n < FS_NPAGES && Live(t, n) && n != ROOT
    ensures InTable(t[n].father) && t[n].father !in Subtree(t, n) && t[n].father != n
  {
    assert SlotOk(t, v.depth, n);
    if t[n].father in Subtree(t, n) {
      UnderDeeper(t, v, d, n, t[n].father);
    }
  }

  lemma FreedTables(t: Table, v: View, n: nat, r: set<nat>, all: set<nat>, attached: bool)
    requires n < |t| == |v.sons| == FS_NPAGES && r == SubtreesOf(t, v.sons[n][..|v.sons[n]|]) && n !in r
    requires all == r + {n} == Subtree(t, n) && InTable(t[n].father) && t[n].father !in all
    requires Progress(t, v, n, |v.sons[n]|)[n] == t[n].(firstSon := NIL)
    ensures Freed(Progress(t, v, n, |v.sons[n]|), n, attached) == Deleted(t, n, attached)
    ensures ClearedView(
              DetachedView(Progress(t, v, n, |v.sons[n]|), ProgressView(t, v, n, |v.sons[n]|), n, attached), {n})
         == ClearedView(DetachedView(t, v, n, attached), all)
  {
    hide SubtreesOf, Subtree, Freed, Deleted, DetachedView, ClearedView;
    FreedAll(t, Progress(t, v, n, |v.sons[n]|), n, r, all, attached);
    DetachedAll(t, v, Progress(t, v, n, |v.sons[n]|), n, r, all, attached);
  }

  lemma FreedAll(t: Table, p: Table, n: nat, r: set<nat>, all: set<nat>, attached: bool)
    requires n < |t| == FS_NPAGES && n !in r && all == r + {n} == Subtree(t, n)
    requires p == ClearAll(t, r)[n := t[n].(firstSon := NIL)]
    requires 0 <= t[n].father
    ensures Freed(p, n, attached) == Deleted(t, n, attached)
  {
    hide Subtree;
    forall j | 0 <= j < FS_NPAGES ensures Freed(p, n, attached)[j] == Deleted(t, n, attached)[j] {
      FreedOne(t, p, n, r, all, attached, j);
    }
  }

  lemma FreedOne(t: Table, p: Table, n: nat, r: set<nat>, all: set<nat>, attached: bool, j: nat)
    requires n < |t| == FS_NPAGES && n !in r && all == r + {n} == Subtree(t, n) && j < FS_NPAGES
    requires p == ClearAll(t, r)[n := t[n].(firstSon := NIL)]
    ensures Freed(p, n, attached)[j] == Deleted(t, n, attached)[j]
  {
    hide Subtree;
  }

  lemma DetachedAll(t: Table, v: View, p: Table, n: nat, r: set<nat>, all: set<nat>, attached: bool)
    requires n < |t| == |v.sons| == FS_NPAGES && r == SubtreesOf(t, v.sons[n][..|v.sons[n]|]) && n !in r
    requires all == r + {n} && InTable(t[n].father) && t[n].father !in all
    requires p == ClearAll(t, r)[n := t[n].(firstSon := NIL)]
    ensures |p| == FS_NPAGES && p[n].father == t[n].father
    ensures ClearedView(DetachedView(p, ProgressView(t, v, n, |v.sons[n]|), n, attached), {n})
         == ClearedView(DetachedView(t, v, n, attached), all)
  {
    hide SubtreesOf;
    var a := ClearedView(DetachedView(p, ProgressView(t, v, n, |v.sons[n]|), n, attached), {n});
    var b := ClearedView(DetachedView(t, v, n, attached), all);
    assert a.sons == b.sons;
  }

  // ----- The slot that free_inode changes

  /** Unlinking n changes its father when it is the first son, and else its elder brother. */
  lemma UnlinkedAt(t: Table, v: View, n: nat, at: nat)
    requires Forest(t, v, {}) && n < FS_NPAGES && Live(t, n) && n != ROOT && InTable(t[n].father)
    requires at < |v.sons[t[n].father]| && v.sons[t[n].father][at] == n
    ensures var f, s := t[n].father, v.sons[t[n].father];
      && (at == 0 ==> Unlinked(t, n) == t[f := t[f].(firstSon := t[n].brother)])
      && (at > 0 ==> s[at - 1] < FS_NPAGES && Unlinked(t, n) == t[s[at - 1] := t[s[at - 1]].(brother := t[n].brother)])
  {
    hide Forest;
    Sizes(t, v, {});
    forall j | 0 <= j < FS_NPAGES
      ensures t[j].firstSon == n <==> j == t[n].father && at == 0
      ensures t[j].brother == n <==> at > 0 && j == v.sons[t[n].father][at - 1]
    {
      LinksAt(t, v, n, at, j);
    }
    LinksAt(t, v, n, at, n);
  }

  lemma LinksAt(t: Table, v: View, n: nat, at: nat, j: nat)
    requires Forest(t, v, {}) && n < FS_NPAGES && Live(t, n) && n != ROOT && InTable(t[n].father)
    requires at < |v.sons[t[n].father]| && v.sons[t[n].father][at] == n && j < FS_NPAGES
    ensures t[j].firstSon == n <==> j == t[n].father && at == 0
    ensures t[j].brother == n <==> at > 0 && j == v.sons[t[n].father][at - 1]
    ensures at > 0 ==> v.sons[t[n].father][at - 1] < FS_NPAGES
  {
    hide SlotOk;
    var f: nat, s := t[n].father, v.sons[t[n].father];
    assert SonsOk(t, s, {}, f);
    if at > 0 {
      assert t[s[at - 1]].brother == After(s, at - 1);
    }
    LinksTo(t, v, n, j);
    if t[j].brother == n {
      assert IsSon(t, {}, f, j);
      var k :| 0 <= k < |s| && s[k] == j;
      assert t[s[k]].brother == After(s, k);
    }
  }

  /** A detached node has no links in its father's chain. */
  lemma NotLinked(t: Table, v: View, d: set<nat>, n: nat)
    requires Forest(t, v, d) && n < FS_NPAGES && Live(t, n) && n != ROOT && n in d
    ensures InTable(t[n].father) && t[t[n].father].firstSon != n
    ensures forall k :: 0 <= k < |v.sons[t[n].father]| ==> After(v.sons[t[n].father], k) != n
  {
    assert SlotOk(t, v.depth, n);
    var f: nat, s := t[n].father, v.sons[t[n].father];
    assert SonsOk(t, s, d, f);
    assert n !in s;
  }

  /** What free_inode finds in the chain of n's father, and where unlinking changes it. */
  lemma FatherChain(t: Table, v: View, d: set<nat>, n: nat, attached: bool) returns (at: nat)
    requires Forest(t, v, d) && n < FS_NPAGES && Live(t, n) && n != ROOT
    requires if attached then d == {} else n in d
    ensures |t| == |v.sons| == FS_NPAGES && InTable(t[n].father) && t[n].father != n
    ensures t[n].kind == FOLDER || t[n].firstSon == NIL
    ensures var f, s := t[n].father, v.sons[t[n].father];
      && t[f].firstSon == First(s)
      && (forall k :: 0 <= k < |s| ==> s[k] < FS_NPAGES && t[s[k]].brother == After(s, k))
      && (!attached ==> First(s) != n && forall k :: 0 <= k < |s| ==> After(s, k) != n)
      && (attached ==>
            && at < |s| && s[at] == n && (First(s) == n <==> at == 0)
            && (forall k :: 0 <= k < at ==> (After(s, k) == n <==> k + 1 == at))
            && (at == 0 ==> Unlinked(t, n) == t[f := t[f].(firstSon := t[n].brother)])
            && (at > 0 ==> Unlinked(t, n) == t[s[at - 1] := t[s[at - 1]].(brother := t[n].brother)]))
  {
    hide SlotOk, Unlinked, Subtree;
    at := 0;
    FatherOutside(t, v, d, n);
    FilesHaveNoSons(t, v, d, n);
    var f: nat, s := t[n].father, v.sons[t[n].father];
    assert SonsOk(t, s, d, f);
    if attached {
      assert IsSon(t, {}, f, n);
      at :| 0 <= at < |s| && s[at] == n;
      UnlinkedAt(t, v, n, at);
    } else {
      NotLinked(t, v, d, n);
    }
  }

  lemma FilesHaveNoSons(t: Table, v: View, d: set<nat>, n: nat)
    requires Forest(t, v, d) && n < FS_NPAGES
    ensures t[n].kind == FOLDER || t[n].firstSon == NIL
  {
    assert SlotOk(t, v.depth, n);
  }

  lemma FreedSlot(t: Table, n: nat, attached: bool)
    requires n < |t|
    ensures var u := if attached then Unlinked(t, n) else t;
      && Freed(t, n, attached) == u[n := Cleared(u[n])]
      && (t[n].firstSon == NIL ==> u[n].firstSon == NIL)
  {
  }

  class InodeTable {
    const table: array<Inode>
    ghost var view: View

    ghost predicate Valid(d: set<nat>)
      reads this, table
    {
      Forest(table[..], view, d)
    }

    /** init_fs, without the data blocks: the root and 127 empty slots. */
    constructor ()
      ensures Valid({}) && fresh(table)
      ensures table[ROOT] == Inode(FOLDER, "/", NIL, NIL, NIL, 0, 0) && view.sons[ROOT] == []
      ensures forall j :: 0 < j < FS_NPAGES ==> table[j] == Inode(EMPTY, "", NIL, NIL, NIL, 0, 0)
    {
      table := new Inode[FS_NPAGES](i =>
        if i == 0 then Inode(FOLDER, "/", NIL, NIL, NIL, 0, 0) else Inode(EMPTY, "", NIL, NIL, NIL, 0, 0));
      view := View(seq(FS_NPAGES, _ => []), seq(FS_NPAGES, _ => 0));
    }

    /** The id of the last son, or -1. */
    method FindLastChild(father: nat) returns (last: int)
      requires Valid({}) && father < FS_NPAGES
      ensures var s := view.sons[father]; last == (if s == [] then -1 else s[|s| - 1])
    {
      ghost var s := view.sons[father];
      assert SonsOk(table[..], s, {}, father);
      if table[father].firstSon == NIL {
        return -1;
      }
      var cur := table[father].firstSon;
      ghost var k := 0;
      while table[cur].brother != NIL
        invariant 0 <= k < |s| && cur == s[k] && InTable(cur)
        decreases |s| - k
      {
        assert table[s[k]].brother == After(s, k);
        cur := table[cur].brother;
        k := k + 1;
      }
      assert table[s[k]].brother == After(s, k);
      return cur;
    }

    /** alloc_inode under a folder: the first empty slot, or -1 when there is none. */
    method AllocInode(name: string, father: nat, kind: Kind) returns (id: int)
      requires Valid({}) && father < FS_NPAGES && table[father].kind == FOLDER && kind != EMPTY && ValidName(name)
      modifies `view, table
      ensures Valid({})
      ensures FirstEmpty(old(table[..]), 0) == FS_NPAGES ==>
        id == -1 && table[..] == old(table[..]) && view == old(view)
      ensures FirstEmpty(old(table[..]), 0) < FS_NPAGES ==>
        && id == FirstEmpty(old(table[..]), 0)
        && table[..] == Created(old(table[..]), id, father, name, kind)
        && view == CreatedView(old(view), id, father)
    {
      ghost var t := table[..];
      for i := 0 to FS_NPAGES
        invariant table[..] == t && view == old(view) && FirstEmpty(t, i) == FirstEmpty(t, 0)
      {
        if table[i].kind == EMPTY {
          var brother := FindLastChild(father);
          LastSonLinks(t, view, i, father, name, kind);
          table[i] := table[i].(kind := kind, name := name, father := father);
          if brother == -1 {
            table[father] := table[father].(firstSon := i);
          } else {
            table[brother] := table[brother].(brother := i);
          }
          assert table[..] == Created(t, i, father, name, kind);
          CreateKeeps(t, view, i, father, name, kind);
          view := CreatedView(view, i, father);
          return i;
        }
      }
      return -1;
    }

    /** free_inode. A folder that still leads to a son is refused; otherwise the node is taken
        out of its father's chain, if it is in it, and cleared. */
    method FreeInode(inode: int, ghost d: set<nat>, ghost attached: bool) returns (code: int)
      requires Valid(d)
      requires InTable(inode) ==> Live(table[..], inode) && inode != ROOT && (if attached then d == {} else inode in d)
      modifies table
      ensures !InTable(inode) ==> code == -1 && table[..] == old(table[..])
      ensures InTable(inode) && old(table[inode].kind == FOLDER && table[inode].firstSon != NIL) ==>
        code == -2 && table[..] == old(table[..])
      ensures InTable(inode) && !old(table[inode].kind == FOLDER && table[inode].firstSon != NIL) ==>
        code == 0 && table[..] == Freed(old(table[..]), inode, attached)
    {
      hide Forest, Live, Unlinked, Freed, Bypass;
      ghost var t := table[..];
      Sizes(t, view, d);
      if inode < 0 || inode >= FS_NPAGES {
        return -1;
      }
      if table[inode].kind == FOLDER && table[inode].firstSon != NIL {
        return -2;
      }
      ghost var at := FatherChain(t, view, d, inode, attached);
      FreedSlot(t, inode, attached);
      var brother := table[inode].brother;
      var father := table[inode].father;
      ghost var s := view.sons[father];
      if table[father].firstSon == inode {
        table[father] := table[father].(firstSon := brother);
        assert table[..] == Unlinked(t, inode);
      } else {
        var nextChild := table[father].firstSon;
        ghost var k := 0;
        while nextChild != NIL
          invariant 0 <= k <= |s| && table[..] == t
          invariant nextChild == (if k < |s| then s[k] else NIL)
          invariant attached ==> k < at
          decreases |s| - k
        {
          assert table[nextChild] == t[s[k]] && t[s[k]].brother == After(s, k);
          if table[nextChild].brother == inode {
            assert attached && at == k + 1;
            table[nextChild] := table[nextChild].(brother := brother);
            assert table[..] == Unlinked(t, inode);
            break;
          }
          nextChild := table[nextChild].brother;
          k := k + 1;
        }
      }
      assert table[..] == if attached then Unlinked(t, inode) else t;
      table[inode] := table[inode].(brother := NIL, father := NIL, size := 0, ref := 0, kind := EMPTY);
      assert table[..] == Freed(t, inode, attached);
      return 0;
    }

    /** delete_inode: an empty inode is left alone; otherwise exactly its subtree is cleared and,
        if it is in its father's chain, it is taken out; the sons are detached one by one before
        the recursive calls. It ends because every son has a smaller subtree. */
    method DeleteInode(i: nat, ghost d: set<nat>, ghost attached: bool)
      requires Valid(d) && i < FS_NPAGES && i != ROOT
      requires table[i].kind != EMPTY ==> AllAbove(view, d, i) && (if attached then d == {} else i in d)
      modifies `view, table
      ensures Forest(old(table[..]), old(view), d)
      ensures old(table[i].kind == EMPTY) ==> table[..] == old(table[..]) && view == old(view)
      ensures old(table[i].kind != EMPTY) ==>
        && Valid(d - {i})
        && table[..] == Deleted(old(table[..]), i, attached)
        && InTable(old(table[i].father))
        && view == ClearedView(DetachedView(old(table[..]), old(view), i, attached), Subtree(old(table[..]), i))
      decreases Subtree(table[..], i)
    {
      hide SonsOk, SlotOk, Subtree, SubtreesOf, Under, Progress, ProgressView, Deleted, Freed, ClearAll, NothingBelow,
           First, ClearedView, AllAbove, AdvancedView, Forest, DetachedView;
      LiveOrNot(table[..], view, d, i);
      if table[i].kind == EMPTY {
        return;
      }
      ghost var t, v := table[..], view;
      ghost var s := v.sons[i];
      ghost var m := 0;
      ProgressStart(t, v, d, i);
      if table[i].kind == FILE {
        FileHasNoSons(t, v, d, i);
      } else {
        while table[i].firstSon != NIL
          invariant 0 <= m <= |s| && table[..] == Progress(t, v, i, m) && view == ProgressView(t, v, i, m)
          invariant Valid(d)
          decreases |s| - m
        {
          MoreSons(t, v, d, i, m);
          TurnReady(t, v, d, i, m, table[..], view);
          TurnDone(t, v, d, i, m, table[..], view, s[m]);
          var toDelete := table[i].firstSon;
          table[i] := table[i].(firstSon := table[toDelete].brother);
          assert table[..] == Advanced(Progress(t, v, i, m), i);
          view := AdvancedView(view, i);
          DeleteInode(toDelete, d + {toDelete}, false);
          assert d + {toDelete} - {toDelete} == d;
          m := m + 1;
        }
        MoreSons(t, v, d, i, m);
      }
      ProgressEnd(t, v, d, i);
      FreedIsDeleted(t, v, d, i, attached);
      FreedKeeps(table[..], view, d, i, attached);
      ghost var left := table[..];
      var code := FreeInode(i, d, attached);
      view := ClearedView(DetachedView(left, view, i, attached), {i});
    }
  }

  lemma LiveOrNot(t: Table, v: View, d: set<nat>, i: nat)
    requires Forest(t, v, d) && i < FS_NPAGES
    ensures |t| == |v.sons| == |v.depth| == FS_NPAGES && (Live(t, i) <==> t[i].kind != EMPTY)
  {
  }

  /** All that the recursive call on the next son needs, and what comes of it. */
  ghost predicate Ready(t: Table, n: nat, p: Table, pv: View, c: nat, d: set<nat>) {
    && |p| == |pv.sons| == |pv.depth| == FS_NPAGES && n < FS_NPAGES && c < FS_NPAGES && c != ROOT && c != n
    && pv.sons[n] != [] && InTable(p[n].firstSon) && p[n].firstSon == c
    && Forest(Advanced(p, n), AdvancedView(pv, n), d + {c}) && Advanced(p, n)[c].kind != EMPTY && c !in d
    && AllAbove(AdvancedView(pv, n), d + {c}, c)
    && Subtree(Advanced(p, n), c) < Subtree(t, n)
  }

  lemma TurnReady(t: Table, v: View, d: set<nat>, n: nat, m: nat, p: Table, pv: View)
    requires Forest(t, v, d) && n < FS_NPAGES && Live(t, n) && m < |v.sons[n]| && AllAbove(v, d, n)
    requires p == Progress(t, v, n, m) && pv == ProgressView(t, v, n, m) && Forest(p, pv, d)
    ensures Ready(t, n, p, pv, v.sons[n][m], d)
  {
    hide Forest, Subtree, SubtreesOf, Under, Progress, ProgressView, ClearAll, ClearedView, First;
    Sizes(t, v, d);
    ProgressFacts(t, v, d, n, m);
    ProgressStep(t, v, d, n, m);
    SonIsSmaller(t, v, d, n, m, Advanced(p, n));
    SonsAreNodes(t, v, d, n, m);
  }

  lemma TurnDone(t: Table, v: View, d: set<nat>, n: nat, m: nat, p: Table, pv: View, c: nat)
    requires Forest(t, v, d) && n < FS_NPAGES && Live(t, n) && m < |v.sons[n]| && AllAbove(v, d, n)
    requires p == Progress(t, v, n, m) && pv == ProgressView(t, v, n, m) && Forest(p, pv, d)
    requires c == v.sons[n][m] && Ready(t, n, p, pv, c, d)
    ensures Deleted(Advanced(p, n), c, false) == Progress(t, v, n, m + 1)
    ensures ClearedView(DetachedView(Advanced(p, n), AdvancedView(pv, n), c, false), Subtree(Advanced(p, n), c))
         == ProgressView(t, v, n, m + 1)
  {
    hide Forest, Subtree, SubtreesOf, Under, Progress, ProgressView, ClearAll, ClearedView, First;
    ProgressStep(t, v, d, n, m);
    DetachedDeleted(Advanced(p, n), c);
  }

  lemma DetachedDeleted(t: Table, n: nat)
    requires n < |t|
    ensures Deleted(t, n, false) == ClearAll(t, Subtree(t, n))
  {
  }

  lemma FileHasNoSons(t: Table, v: View, d: set<nat>, n: nat)
    requires Forest(t, v, d) && n < FS_NPAGES && t[n].kind == FILE
    ensures v.sons[n] == []
  {
    assert SonsOk(t, v.sons[n], d, n) && SlotOk(t, v.depth, n);
  }

  /** The folder leads to a son as long as some are left. */
  lemma MoreSons(t: Table, v: View, d: set<nat>, n: nat, m: nat)
    requires Forest(t, v, d) && n < FS_NPAGES && m <= |v.sons[n]|
    ensures Progress(t, v, n, m)[n].firstSon != NIL <==> m < |v.sons[n]|
  {
  }

  /** What makes the recursion end. */
  lemma SonIsSmaller(t: Table, v: View, d: set<nat>, n: nat, m: nat, a: Table)
    requires Forest(t, v, d) && n < FS_NPAGES && Live(t, n) && m < |v.sons[n]|
    requires InTable(Progress(t, v, n, m)[n].firstSon) && a == Advanced(Progress(t, v, n, m), n)
    ensures Subtree(a, v.sons[n][m]) < Subtree(t, n)
  {
    hide Progress, Under, SubtreesOf;
    SonsAreNodes(t, v, d, n, m);
    SameAdvanced(Progress(t, v, n, m), n);
    NextSubtree(t, v, d, n, m, a);
    SubtreeClosed(t, v, d, n);
    forall j | j in Subtree(t, v.sons[n][m]) ensures j in Subtree(t, n) {
      UnderTrans(t, n, v.sons[n][m], j);
    }
  }

  /** Where alloc_inode links the new slot. */
  lemma LastSonLinks(t: Table, v: View, i: nat, f: nat, name: string, kind: Kind)
    requires Forest(t, v, {}) && i < FS_NPAGES && f < FS_NPAGES
    requires t[i].kind == EMPTY && t[f].kind == FOLDER && kind != EMPTY
    ensures var s, t1 := v.sons[f], t[i := t[i].(kind := kind, name := name, father := f)];
      && (s == [] ==> Created(t, i, f, name, kind) == t1[f := t1[f].(firstSon := i)])
      && (s != [] ==> s[|s| - 1] < FS_NPAGES && s[|s| - 1] != i)
      && (s != [] ==> Created(t, i, f, name, kind) == t1[s[|s| - 1] := t1[s[|s| - 1]].(brother := i)])
  {
    hide SlotOk;
    var s := v.sons[f];
    assert SonsOk(t, s, {}, f);
    EmptyApart(t, v, i);
    forall j | 0 <= j < FS_NPAGES && j != i && Live(t, j) && j != ROOT && t[j].father == f
      ensures t[j].brother == NIL <==> s != [] && j == s[|s| - 1]
    {
      OnlyLast(t, v, f, j);
    }
    if s != [] {
      assert s[|s| - 1] in s && IsSon(t, {}, f, s[|s| - 1]);
    }
  }
}
