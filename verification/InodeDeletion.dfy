/** delete_inode: the subtree of a node becomes empty and the node leaves its father's chain;
    nothing else changes. */
module InodeDeletion {
  import opened Inodes

  function Cleared(n: Inode): Inode {
    n.(kind := EMPTY, father := NIL, brother := NIL, firstSon := NIL, size := 0, ref := 0)
  }

  /** Every slot of r cleared. */
  ghost function ClearAll(t: Table, r: set<nat>): (t': Table)
    ensures |t'| == |t|
    ensures forall j :: 0 <= j < |t| ==> t'[j] == (if j in r then Cleared(t[j]) else t[j])
  {
    seq(|t|, j requires 0 <= j < |t| => if j in r then Cleared(t[j]) else t[j])
  }

  /** The slots under n, n among them. */
  ghost function Subtree(t: Table, n: nat): set<nat> {
    set j | 0 <= j < FS_NPAGES && Under(t, n, j)
  }

  /** The link p, where links to n go to next instead. */
  function Bypass(p: int, n: nat, next: int): int {
    if p == n then next else p
  }

  /** n taken out of its father's chain. */
  function Unlinked(t: Table, n: nat): (t': Table)
    requires n < |t|
    ensures |t'| == |t|
    ensures forall j :: 0 <= j < |t| ==>
      t'[j] == t[j].(firstSon := Bypass(t[j].firstSon, n, t[n].brother),
                     brother := Bypass(t[j].brother, n, t[n].brother))
  {
    seq(|t|, j requires 0 <= j < |t| =>
      t[j].(firstSon := Bypass(t[j].firstSon, n, t[n].brother), brother := Bypass(t[j].brother, n, t[n].brother)))
  }

  /** The table after delete_inode on n: attached says whether n is in its father's chain. */
  ghost function Deleted(t: Table, n: nat, attached: bool): (t': Table)
    requires n < |t|
    ensures |t'| == |t|
  {
    ClearAll(if attached then Unlinked(t, n) else t, Subtree(t, n))
  }

  function Without(s: seq<nat>, n: nat): seq<nat> {
    if s == [] then [] else if s[0] == n then s[1..] else [s[0]] + Without(s[1..], n)
  }

  /** The view after the slots of r are cleared. */
  ghost function ClearedView(v: View, r: set<nat>): (v': View)
    ensures |v'.sons| == |v.sons| && v'.depth == v.depth
    ensures forall i :: 0 <= i < |v.sons| ==> v'.sons[i] == (if i in r then [] else v.sons[i])
  {
    View(seq(|v.sons|, i requires 0 <= i < |v.sons| => if i in r then [] else v.sons[i]), v.depth)
  }

  // ----- Subtrees

  lemma SelfUnder(t: Table, n: nat)
    ensures Under(t, n, n)
  {
    assert Up(t, n, 0) == n;
  }

  /** A live node under n is no nearer to the root than n, and only n itself is as near. */
  lemma {:induction false} UnderDeeper(t: Table, v: View, d: set<nat>, n: nat, j: nat)
    requires Forest(t, v, d) && Live(t, n) && Live(t, j) && Under(t, n, j)
    ensures v.depth[n] <= v.depth[j] && (v.depth[n] == v.depth[j] ==> n == j)
    decreases v.depth[j]
  {
    if n != j {
      UnderStep(t, n, j);
      assert SlotOk(t, v.depth, j);
      if j != ROOT {
        UnderDeeper(t, v, d, n, t[j].father);
      }
    }
  }

  /** Two nodes as near to the root have no common descendant. */
  lemma {:induction false} Disjoint(t: Table, v: View, d: set<nat>, a: nat, b: nat, j: nat)
    requires Forest(t, v, d) && Live(t, a) && Live(t, b) && Live(t, j) && v.depth[a] == v.depth[b]
    requires Under(t, a, j) && Under(t, b, j)
    ensures a == b
    decreases v.depth[j]
  {
    if j == a {
      UnderDeeper(t, v, d, b, a);
    } else if j == b {
      UnderDeeper(t, v, d, a, b);
    } else {
      UnderStep(t, a, j);
      UnderStep(t, b, j);
      assert SlotOk(t, v.depth, j);
      Disjoint(t, v, d, a, b, t[j].father);
    }
  }

  /** An empty slot is under itself only. */
  lemma UnderEmpty(t: Table, v: View, d: set<nat>, n: nat, j: nat)
    requires Forest(t, v, d) && j < FS_NPAGES && t[j].kind == EMPTY && n != j
    ensures !Under(t, n, j)
  {
    assert SlotOk(t, v.depth, j);
    UnderStep(t, n, j);
  }

  /** Slots of a set that is closed under sons. */
  ghost predicate Closed(t: Table, r: set<nat>) {
    |t| == FS_NPAGES && forall j: nat :: Live(t, j) && j != ROOT && t[j].father >= 0 && t[j].father in r ==> j in r
  }

  /** Clearing a closed set leaves, of the nodes under n, those outside the set. */
  lemma {:induction false} UnderCleared(t: Table, v: View, d: set<nat>, r: set<nat>, n: nat, j: nat)
    requires Forest(t, v, d) && Closed(t, r) && n < FS_NPAGES && j < FS_NPAGES && n !in r
    ensures Under(ClearAll(t, r), n, j) <==> Under(t, n, j) && j !in r
    decreases v.depth[j]
  {
    var t' := ClearAll(t, r);
    if j == n {
      SelfUnder(t, n);
      SelfUnder(t', n);
    } else {
      UnderStep(t, n, j);
      UnderStep(t', n, j);
      assert SlotOk(t, v.depth, j);
      if j !in r && Live(t, j) && j != ROOT {
        UnderCleared(t, v, d, r, n, t[j].father);
      }
    }
  }

  lemma SubtreeClosed(t: Table, v: View, d: set<nat>, n: nat)
    requires Forest(t, v, d) && Live(t, n)
    ensures Closed(t, Subtree(t, n)) && n in Subtree(t, n)
    ensures forall j :: j in Subtree(t, n) ==> Live(t, j)
    ensures n != ROOT ==> ROOT !in Subtree(t, n)
  {
    SelfUnder(t, n);
    forall j: nat | Live(t, j) && j != ROOT && t[j].father >= 0 && t[j].father in Subtree(t, n)
      ensures j in Subtree(t, n)
    {
      if j != n {
        UnderStep(t, n, j);
      }
    }
    forall j | j in Subtree(t, n) ensures Live(t, j) {
      if t[j].kind == EMPTY {
        UnderEmpty(t, v, d, n, j);
      }
    }
    if n != ROOT {
      UnderStep(t, n, ROOT);
    }
  }

  /** The subtree of a node is the node and its sons' subtrees. */
  lemma SubtreeBySons(t: Table, v: View, d: set<nat>, n: nat, j: nat)
    requires Forest(t, v, d) && Live(t, n) && Live(t, j) && j != n && Under(t, n, j)
    ensures exists c: nat :: Live(t, c) && c != ROOT && t[c].father == n && Under(t, c, j)
    decreases v.depth[j]
  {
    UnderStep(t, n, j);
    assert SlotOk(t, v.depth, j);
    if t[j].father == n {
      SelfUnder(t, j);
    } else {
      var f: nat := t[j].father;
      SubtreeBySons(t, v, d, n, f);
      var c: nat :| Live(t, c) && c != ROOT && t[c].father == n && Under(t, c, f);
      if c != j {
        UnderStep(t, c, j);
      } else {
        SelfUnder(t, j);
      }
    }
  }

  // ----- Clearing keeps a forest

  /** Clearing a closed set whose nodes' fathers outside it have lost them already. */
  lemma ClearKeeps(t: Table, v: View, d: set<nat>, r: set<nat>, n: nat)
    requires Forest(t, v, d) && Closed(t, r) && ROOT !in r
    requires n in d && Live(t, n) && n in r
    requires forall j: nat :: Live(t, j) && j != ROOT && j in r && j != n ==> t[j].father >= 0 && t[j].father in r
    requires d * r == {n}
    ensures Forest(ClearAll(t, r), ClearedView(v, r), d - {n})
  {
    hide SonsOk, SlotOk;
    var t', v' := ClearAll(t, r), ClearedView(v, r);
    forall j | 0 <= j < FS_NPAGES ensures SlotOk(t', v'.depth, j) {
      ClearSlot(t, v, d, r, j);
    }
    forall i | 0 <= i < FS_NPAGES ensures SonsOk(t', v'.sons[i], d - {n}, i) {
      ClearSons(t, v, d, r, n, i);
    }
  }

  lemma ClearSlot(t: Table, v: View, d: set<nat>, r: set<nat>, j: nat)
    requires Forest(t, v, d) && Closed(t, r) && ROOT !in r && j < FS_NPAGES
    ensures SlotOk(ClearAll(t, r), v.depth, j)
  {
    assert SlotOk(t, v.depth, j);
  }

  lemma ClearSons(t: Table, v: View, d: set<nat>, r: set<nat>, n: nat, i: nat)
    requires Forest(t, v, d) && Closed(t, r) && ROOT !in r && i < FS_NPAGES
    requires n in d && Live(t, n) && n in r
    requires forall j: nat :: Live(t, j) && j != ROOT && j in r && j != n ==> t[j].father >= 0 && t[j].father in r
    requires d * r == {n}
    ensures SonsOk(ClearAll(t, r), ClearedView(v, r).sons[i], d - {n}, i)
  {
    var t', s := ClearAll(t, r), v.sons[i];
    assert SonsOk(t, s, d, i);
    if i in r {
      forall j: nat ensures !IsSon(t', d - {n}, i, j) {
      }
    } else {
      forall k | 0 <= k < |s| ensures t'[s[k]].brother == After(s, k) && s[k] !in r {
        assert s[k] in s && IsSon(t, d, i, s[k]);
      }
      forall j: nat ensures j in s <==> IsSon(t', d - {n}, i, j) {
        assert j in s <==> IsSon(t, d, i, j);
      }
    }
  }

  // ----- Taking a node out of its father's chain

  /** The table after folder i's first son became its second one. */
  function Advanced(t: Table, i: nat): (t': Table)
    requires |t| == FS_NPAGES && i < FS_NPAGES && InTable(t[i].firstSon)
    ensures |t'| == |t|
  {
    t[i := t[i].(firstSon := t[t[i].firstSon].brother)]
  }

  function AdvancedView(v: View, i: nat): View
    requires i < |v.sons| && v.sons[i] != []
  {
    View(v.sons[i := v.sons[i][1..]], v.depth)
  }

  /** Advancing first_son detaches the first son. */
  lemma AdvanceKeeps(t: Table, v: View, d: set<nat>, i: nat)
    requires Forest(t, v, d) && i < FS_NPAGES && v.sons[i] != []
    ensures InTable(t[i].firstSon) && t[i].firstSon == v.sons[i][0]
    ensures v.sons[i][0] !in d && Live(t, v.sons[i][0]) && v.sons[i][0] != ROOT && t[v.sons[i][0]].father == i
    ensures t[v.sons[i][0]].brother == First(v.sons[i][1..])
    ensures Forest(Advanced(t, i), AdvancedView(v, i), d + {v.sons[i][0]})
  {
    hide SlotOk;
    assert SonsOk(t, v.sons[i], d, i);
    var c := v.sons[i][0];
    assert c in v.sons[i] && IsSon(t, d, i, c);
    assert t[v.sons[i][0]].brother == After(v.sons[i], 0);
    var t' := Advanced(t, i);
    forall j | 0 <= j < FS_NPAGES ensures SlotOk(t', v.depth, j) {
      AdvancedSlot(t, v, d, i, j);
    }
    forall g | 0 <= g < FS_NPAGES ensures SonsOk(t', AdvancedView(v, i).sons[g], d + {c}, g) {
      AdvancedSons(t, v, d, i, g);
    }
  }

  lemma AdvancedSlot(t: Table, v: View, d: set<nat>, i: nat, j: nat)
    requires Forest(t, v, d) && i < FS_NPAGES && j < FS_NPAGES && InTable(t[i].firstSon)
    ensures SlotOk(Advanced(t, i), v.depth, j)
  {
    assert SlotOk(t, v.depth, j) && SlotOk(t, v.depth, i);
  }

  lemma AdvancedSons(t: Table, v: View, d: set<nat>, i: nat, g: nat)
    requires Forest(t, v, d) && i < FS_NPAGES && g < FS_NPAGES && v.sons[i] != [] && InTable(t[i].firstSon)
    ensures SonsOk(Advanced(t, i), AdvancedView(v, i).sons[g], d + {v.sons[i][0]}, g)
  {
    hide SonsOk;
    assert SonsOk(t, v.sons[i], d, i) && SonsOk(t, v.sons[g], d, g);
    if g == i {
      AdvancedOwn(t, v.sons[i], d, i);
    } else {
      AdvancedOther(t, v.sons[i], d, i, v.sons[g], g);
    }
  }

  lemma AdvancedOwn(t: Table, s: seq<nat>, d: set<nat>, i: nat)
    requires SonsOk(t, s, d, i) && s != [] && InTable(t[i].firstSon)
    ensures SonsOk(Advanced(t, i), s[1..], d + {s[0]}, i)
  {
    var t', c, s' := Advanced(t, i), s[0], s[1..];
    ChainTail(t, s);
    forall k | 0 <= k < |s'| ensures t'[s'[k]].brother == After(s', k) {
      assert t[s'[k]].brother == After(s', k);
    }
    forall j: nat ensures j in s' <==> IsSon(t', d + {c}, i, j) {
      assert j in s <==> IsSon(t, d, i, j);
      assert j in s <==> j == c || j in s';
    }
  }

  lemma AdvancedOther(t: Table, own: seq<nat>, d: set<nat>, i: nat, s: seq<nat>, g: nat)
    requires SonsOk(t, own, d, i) && SonsOk(t, s, d, g) && own != [] && g != i && InTable(t[i].firstSon)
    ensures SonsOk(Advanced(t, i), s, d + {own[0]}, g)
  {
    var t', c := Advanced(t, i), own[0];
    assert c in own && IsSon(t, d, i, c);
    forall k | 0 <= k < |s| ensures t'[s[k]].brother == After(s, k) {
      assert t[s[k]].brother == After(s, k);
    }
    forall j: nat ensures j in s <==> IsSon(t', d + {c}, g, j) {
      assert j in s <==> IsSon(t, d, g, j);
    }
  }

  /** With nothing detached, the only links to a node are from its father or its elder brother. */
  lemma LinksTo(t: Table, v: View, n: nat, j: nat)
    requires Forest(t, v, {}) && Live(t, n) && n != ROOT && j < FS_NPAGES
    ensures t[j].firstSon == n ==> j == t[n].father
    ensures t[j].brother == n ==> Live(t, j) && j != ROOT && t[j].father == t[n].father
  {
    assert SonsOk(t, v.sons[j], {}, j) && SlotOk(t, v.depth, j);
    if t[j].firstSon == n {
      assert v.sons[j][0] in v.sons[j];
    }
    if t[j].brother == n {
      var f: nat := t[j].father;
      assert SonsOk(t, v.sons[f], {}, f);
      assert IsSon(t, {}, f, j);
      var k :| 0 <= k < |v.sons[f]| && v.sons[f][k] == j;
      assert t[v.sons[f][k]].brother == After(v.sons[f], k);
      assert v.sons[f][k + 1] in v.sons[f];
    }
  }

  lemma {:induction false} WithoutIndex(s: seq<nat>, n: nat, at: nat)
    requires NoRepeats(s) && at < |s| && s[at] == n
    ensures Without(s, n) == s[..at] + s[at + 1..]
  {
    if at == 0 {
      assert s[..0] + s[1..] == s[1..];
    } else {
      var rest := s[1..];
      assert forall i, j :: 0 <= i < j < |rest| ==> rest[i] == s[i + 1] && rest[j] == s[j + 1];
      WithoutIndex(rest, n, at - 1);
      assert s[0] != s[at];
      assert Without(s, n) == [s[0]] + (rest[..at - 1] + rest[at..]);
      assert [s[0]] + rest[..at - 1] == s[..at] && rest[at..] == s[at + 1..];
    }
  }

  lemma Removed(s: seq<nat>, n: nat, at: nat)
    requires NoRepeats(s) && at < |s| && s[at] == n
    ensures var s' := s[..at] + s[at + 1..];
      && NoRepeats(s') && (forall j: nat :: j in s' <==> j in s && j != n)
      && First(s') == Bypass(First(s), n, After(s, at))
      && (forall k :: 0 <= k < |s'| ==> After(s', k) == Bypass(After(s, if k < at then k else k + 1), n, After(s, at)))
  {
    var s' := s[..at] + s[at + 1..];
    forall j: nat ensures j in s' <==> j in s && j != n {
      if j in s && j != n {
        var k :| 0 <= k < |s| && s[k] == j;
        assert s'[if k < at then k else k - 1] == j;
      }
    }
  }

  function UnlinkedView(v: View, f: nat, n: nat): View
    requires f < |v.sons|
  {
    View(v.sons[f := Without(v.sons[f], n)], v.depth)
  }

  /** Unlinking detaches n. */
  lemma UnlinkKeeps(t: Table, v: View, n: nat)
    requires Forest(t, v, {}) && Live(t, n) && n != ROOT
    ensures InTable(t[n].father) && Forest(Unlinked(t, n), UnlinkedView(v, t[n].father, n), {n})
  {
    hide SonsOk;
    assert SlotOk(t, v.depth, n);
    var t', f := Unlinked(t, n), t[n].father;
    assert t'[ROOT].brother == NIL;
    forall j | 0 <= j < FS_NPAGES ensures SlotOk(t', v.depth, j) {
      UnlinkedSlot(t, v, n, j);
    }
    forall g | 0 <= g < FS_NPAGES ensures SonsOk(t', UnlinkedView(v, f, n).sons[g], {n}, g) {
      if g == f {
        UnlinkedFather(t, v, n);
      } else {
        UnlinkedOther(t, v, n, g);
      }
    }
  }

  lemma UnlinkedSlot(t: Table, v: View, n: nat, j: nat)
    requires Forest(t, v, {}) && Live(t, n) && n != ROOT && j < FS_NPAGES
    ensures SlotOk(Unlinked(t, n), v.depth, j)
  {
    assert SlotOk(t, v.depth, j);
  }

  lemma UnlinkedOther(t: Table, v: View, n: nat, g: nat)
    requires Forest(t, v, {}) && Live(t, n) && n != ROOT && g < FS_NPAGES && g != t[n].father
    ensures SonsOk(Unlinked(t, n), v.sons[g], {n}, g)
  {
    var t', s := Unlinked(t, n), v.sons[g];
    assert SonsOk(t, s, {}, g);
    LinksTo(t, v, n, g);
    forall k | 0 <= k < |s| ensures t'[s[k]].brother == After(s, k) {
      assert s[k] in s && IsSon(t, {}, g, s[k]);
      LinksTo(t, v, n, s[k]);
      assert t[s[k]].brother == After(s, k);
    }
    forall j: nat ensures j in s <==> IsSon(t', {n}, g, j) {
      assert j in s <==> IsSon(t, {}, g, j);
    }
  }

  lemma UnlinkedFather(t: Table, v: View, n: nat)
    requires Forest(t, v, {}) && Live(t, n) && n != ROOT && InTable(t[n].father)
    ensures SonsOk(Unlinked(t, n), Without(v.sons[t[n].father], n), {n}, t[n].father)
  {
    hide SonsOk;
    assert SonsOk(t, v.sons[t[n].father], {}, t[n].father);
    SonsWithout(t, v.sons[t[n].father], t[n].father, n);
  }

  lemma SonsWithout(t: Table, s: seq<nat>, f: nat, n: nat)
    requires SonsOk(t, s, {}, f) && IsSon(t, {}, f, n)
    ensures SonsOk(Unlinked(t, n), Without(s, n), {n}, f)
  {
    hide Without, IsSon;
    var at :| 0 <= at < |s| && s[at] == n;
    WithoutIndex(s, n, at);
    Removed(s, n, at);
    assert t[s[at]].brother == After(s, at);
    ChainWithout(t, s, f, n, at);
    forall j: nat ensures IsSon(Unlinked(t, n), {n}, f, j) <==> IsSon(t, {}, f, j) && j != n {
      SonOfUnlinked(t, f, n, j);
    }
  }

  lemma SonOfUnlinked(t: Table, f: nat, n: nat, j: nat)
    requires |t| == FS_NPAGES && n < FS_NPAGES
    ensures IsSon(Unlinked(t, n), {n}, f, j) <==> IsSon(t, {}, f, j) && j != n
  {
  }

  lemma ChainWithout(t: Table, s: seq<nat>, f: nat, n: nat, at: nat)
    requires f < |t| && Chain(t, t[f].firstSon, s) && NoRepeats(s) && at < |s| && s[at] == n
    ensures Chain(Unlinked(t, n), Unlinked(t, n)[f].firstSon, s[..at] + s[at + 1..])
  {
    hide After, First;
    Removed(s, n, at);
    var t', s' := Unlinked(t, n), s[..at] + s[at + 1..];
    assert t[s[at]].brother == After(s, at);
    forall k | 0 <= k < |s'| ensures s'[k] < FS_NPAGES && t'[s'[k]].brother == After(s', k) {
      var k0 := if k < at then k else k + 1;
      assert s'[k] == s[k0] && t[s[k0]].brother == After(s, k0);
    }
  }
}
