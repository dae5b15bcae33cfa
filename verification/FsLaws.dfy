/** Laws of creation and deletion on the inode table. */
module FsLaws {
  import opened Common
  import opened Inodes
  import opened InodeCreation
  import opened InodeDeletion
  import opened RamFs
  import opened Paths

  ghost function DeletedView(t: Table, v: View, n: nat): View
    requires n < |t| && 0 <= t[n].father < |v.sons|
  {
    ClearedView(UnlinkedView(v, t[n].father, n), Subtree(t, n))
  }

  /** Unlinking does not change who is under whom. */
  lemma UnlinkedSubtree(t: Table, n: nat, c: nat)
    requires |t| == FS_NPAGES && n < FS_NPAGES
    ensures Subtree(Unlinked(t, n), c) == Subtree(t, c)
  {
    hide Under;
    forall j: nat | j < FS_NPAGES ensures Under(Unlinked(t, n), c, j) <==> Under(t, c, j) {
      SameUnder(t, Unlinked(t, n), c, j);
    }
  }

  lemma SubtreeFathers(t: Table, v: View, n: nat)
    requires Forest(t, v, {}) && n < FS_NPAGES && Live(t, n)
    ensures forall j: nat :: j in Subtree(t, n) && j != n ==> t[j].father >= 0 && t[j].father in Subtree(t, n)
  {
    hide Under;
    forall j: nat | j in Subtree(t, n) && j != n ensures t[j].father >= 0 && t[j].father in Subtree(t, n) {
      UnderStep(t, n, j);
      SubtreeClosed(t, v, {}, n);
      assert SlotOk(t, v.depth, j);
      if j == ROOT {
        UnderStep(t, n, ROOT);
      }
    }
  }

  /** Deleting a live node other than the root keeps the forest: exactly its subtree becomes
      empty, its father's sons lose it and keep their order, and all other sons are as before. */
  lemma DeleteKeeps(t: Table, v: View, n: nat)
    requires Forest(t, v, {}) && n < FS_NPAGES && Live(t, n) && n != ROOT
    ensures |t| == FS_NPAGES == |v.sons| && InTable(t[n].father) && t[n].father !in Subtree(t, n)
    ensures Forest(Deleted(t, n, true), DeletedView(t, v, n), {})
  {
    hide Subtree, SonsOk, SlotOk, Under;
    Sizes(t, v, {});
    var u, r := Unlinked(t, n), Subtree(t, n);
    UnlinkKeeps(t, v, n);
    FatherOutside(t, v, {}, n);
    UnlinkedSubtree(t, n, n);
    SubtreeClosed(t, v, {}, n);
    SubtreeFathers(t, v, n);
    SubtreeClosed(u, UnlinkedView(v, t[n].father, n), {n}, n);
    assert {n} * r == {n};
    assert {n} - {n} == {};
    ClearKeeps(u, UnlinkedView(v, t[n].father, n), {n}, r, n);
  }

  /** The slots that are not deleted keep everything but the links around the deleted node. */
  lemma DeleteOnly(t: Table, v: View, n: nat, j: nat)
    requires Forest(t, v, {}) && n < FS_NPAGES && Live(t, n) && n != ROOT && j < FS_NPAGES
    ensures |t| == |Deleted(t, n, true)| == FS_NPAGES == |v.sons| && InTable(t[n].father)
    ensures var t' := Deleted(t, n, true);
      && (t'[j].kind == EMPTY <==> t[j].kind == EMPTY || Under(t, n, j))
      && (!Under(t, n, j) ==>
            t[j] == t'[j].(firstSon := t[j].firstSon, brother := t[j].brother)
            && DeletedView(t, v, n).sons[j] == (if j == t[n].father then Without(v.sons[j], n) else v.sons[j]))
  {
    FatherOutside(t, v, {}, n);
  }

  /** Every link leads to a live node. */
  lemma LinksLive(t: Table, v: View, j: nat)
    requires Forest(t, v, {}) && j < FS_NPAGES
    ensures t[j].firstSon == NIL || Live(t, t[j].firstSon)
    ensures t[j].brother == NIL || Live(t, t[j].brother)
  {
    assert SonsOk(t, v.sons[j], {}, j) && SlotOk(t, v.depth, j);
    if v.sons[j] != [] {
      assert v.sons[j][0] in v.sons[j];
    }
    if Live(t, j) && j != ROOT {
      var f: nat := t[j].father;
      var s := v.sons[f];
      assert SonsOk(t, s, {}, f) && IsSon(t, {}, f, j);
      var k :| 0 <= k < |s| && s[k] == j;
      assert t[s[k]].brother == After(s, k);
      assert k + 1 < |s| ==> s[k + 1] in s;
    }
  }

  /** Deleting a node just created restores the table, except for the name left in its slot and
      a reference count that was not 0; so the next creation takes the same slot. */
  lemma CreateThenDelete(t: Table, v: View, i: nat, f: nat, name: string, kind: Kind)
    requires Forest(t, v, {}) && f < FS_NPAGES && t[f].kind == FOLDER && kind != EMPTY && ValidName(name)
    requires i == FirstEmpty(t, 0) && i < FS_NPAGES
    ensures i < |t|
    ensures Deleted(Created(t, i, f, name, kind), i, true) == t[i := t[i].(name := name, ref := 0)]
    ensures FirstEmpty(Deleted(Created(t, i, f, name, kind), i, true), 0) == i
  {
    hide Forest, Under, Subtree, ClearAll, Unlinked, NothingBelow, Created, FirstEmpty;
    Sizes(t, v, {});
    var t1, v1 := Created(t, i, f, name, kind), CreatedView(v, i, f);
    CreateKeeps(t, v, i, f, name, kind);
    NewIsLeaf(t, v, i, f, name, kind);
    LeafSubtree(t1, v1, {}, i);
    RestoredSlots(t, v, i, f, name, kind);
    SameFirstEmpty(t, t[i := t[i].(name := name, ref := 0)], 0);
  }

  lemma NewIsLeaf(t: Table, v: View, i: nat, f: nat, name: string, kind: Kind)
    requires Forest(t, v, {}) && i < FS_NPAGES && f < FS_NPAGES && t[f].kind == FOLDER && t[i].kind == EMPTY
    requires kind != EMPTY
    ensures NothingBelow(Created(t, i, f, name, kind), i) && Live(Created(t, i, f, name, kind), i)
  {
    EmptyApart(t, v, i);
    var t1 := Created(t, i, f, name, kind);
    forall j: nat | Live(t1, j) && j != ROOT ensures t1[j].father != i {
      assert j != i ==> Live(t, j);
    }
  }

  lemma RestoredSlots(t: Table, v: View, i: nat, f: nat, name: string, kind: Kind)
    requires Forest(t, v, {}) && i < FS_NPAGES && f < FS_NPAGES && t[f].kind == FOLDER && t[i].kind == EMPTY
    requires kind != EMPTY
    ensures ClearAll(Unlinked(Created(t, i, f, name, kind), i), {i}) == t[i := t[i].(name := name, ref := 0)]
  {
    assert SlotOk(t, v.depth, i);
    forall j | 0 <= j < FS_NPAGES
      ensures ClearAll(Unlinked(Created(t, i, f, name, kind), i), {i})[j] == t[i := t[i].(name := name, ref := 0)][j]
    {
      LinksLive(t, v, j);
    }
  }

  lemma {:induction false} SameFirstEmpty(t: Table, t': Table, from: nat)
    requires |t| == |t'| && from <= |t| && forall j :: 0 <= j < |t| ==> t[j].kind == t'[j].kind
    ensures FirstEmpty(t, from) == FirstEmpty(t', from)
    decreases |t| - from
  {
    if from < |t| {
      SameFirstEmpty(t, t', from + 1);
    }
  }

  // ----- Deletion and paths

  lemma {:induction false} FindSonWithout(t: Table, t': Table, sons: seq<nat>, n: nat, name: string, c: nat)
    requires |t| == |t'| && forall k :: 0 <= k < |sons| ==> sons[k] < |t| && t[sons[k]].name == t'[sons[k]].name
    requires FindSon(t, sons, name) == Some(c) && c != n
    ensures forall k :: 0 <= k < |Without(sons, n)| ==> Without(sons, n)[k] < |t'|
    ensures FindSon(t', sons, name) == Some(c)
    ensures FindSon(t', Without(sons, n), name) == Some(c)
  {
    if t[sons[0]].name != name {
      FindSonWithout(t, t', sons[1..], n, name, c);
      if sons[0] != n {
        assert ([sons[0]] + Without(sons[1..], n))[1..] == Without(sons[1..], n);
      }
    } else {
      WithoutIn(sons[1..], n);
      assert Without(sons, n) == [sons[0]] + Without(sons[1..], n);
    }
  }

  lemma {:induction false} WithoutIn(s: seq<nat>, n: nat)
    ensures forall k :: 0 <= k < |Without(s, n)| ==> Without(s, n)[k] in s
  {
    if s != [] && s[0] != n {
      WithoutIn(s[1..], n);
    }
  }

  /** A descent that ends outside n's subtree starts outside it. */
  lemma {:induction false} DescendOutside(t: Table, v: View, n: nat, cur: nat, tokens: seq<string>)
    requires Forest(t, v, {}) && SonsInTable(t, v) && Live(t, cur) && Descend(t, v, cur, tokens).Some?
    requires !Under(t, n, Descend(t, v, cur, tokens).value)
    ensures !Under(t, n, cur)
    decreases |tokens|
  {
    if tokens != [] {
      var c := FindSon(t, v.sons[cur], tokens[0]).value;
      assert c in v.sons[cur] && SonsOk(t, v.sons[cur], {}, cur);
      assert IsSon(t, {}, cur, c);
      DescendOutside(t, v, n, c, tokens[1..]);
      SelfUnder(t, c);
      UnderStep(t, n, c);
    }
  }

  lemma {:induction false} DescendDeleted(t: Table, v: View, n: nat, cur: nat, tokens: seq<string>)
    requires Forest(t, v, {}) && SonsInTable(t, v) && Live(t, n) && n != ROOT && Live(t, cur)
    requires Descend(t, v, cur, tokens).Some? && !Under(t, n, Descend(t, v, cur, tokens).value)
    requires InTable(t[n].father) && |t| == FS_NPAGES && SonsInTable(Deleted(t, n, true), DeletedView(t, v, n))
    ensures Descend(Deleted(t, n, true), DeletedView(t, v, n), cur, tokens) == Descend(t, v, cur, tokens)
    decreases |tokens|
  {
    hide Under, Forest, Deleted, DeletedView, FindSon;
    var t', v' := Deleted(t, n, true), DeletedView(t, v, n);
    if tokens != [] {
      var c := FindSon(t, v.sons[cur], tokens[0]).value;
      NextSon(t, v, cur, c);
      DescendOutside(t, v, n, cur, tokens);
      DescendOutside(t, v, n, c, tokens[1..]);
      SelfUnder(t, n);
      DeleteOnly(t, v, n, cur);
      DeletedNames(t, n);
      FindSonWithout(t, t', v.sons[cur], n, tokens[0], c);
      DescendDeleted(t, v, n, c, tokens[1..]);
    }
  }

  lemma NextSon(t: Table, v: View, cur: nat, c: nat)
    requires Forest(t, v, {}) && SonsInTable(t, v) && cur < FS_NPAGES && c in v.sons[cur]
    ensures Live(t, c) && t[c].father == cur
  {
    assert SonsOk(t, v.sons[cur], {}, cur);
    assert IsSon(t, {}, cur, c);
  }

  lemma DeletedNames(t: Table, n: nat)
    requires n < |t|
    ensures forall j :: 0 <= j < |t| ==> Deleted(t, n, true)[j].name == t[j].name
  {
  }

  /** A deletion keeps the result of every path that led outside the deleted subtree, and no path
      leads into it any more. */
  lemma DeleteKeepsPaths(t: Table, v: View, n: nat, path: string)
    requires Forest(t, v, {}) && SonsInTable(t, v) && n < FS_NPAGES && |t| == FS_NPAGES && Live(t, n) && n != ROOT
    ensures InTable(t[n].father) && SonsInTable(Deleted(t, n, true), DeletedView(t, v, n))
    ensures Resolve(t, v, path).Some? && !Under(t, n, Resolve(t, v, path).value) ==>
      Resolve(Deleted(t, n, true), DeletedView(t, v, n), path) == Resolve(t, v, path)
    ensures Resolve(Deleted(t, n, true), DeletedView(t, v, n), path).Some? ==>
      !Under(t, n, Resolve(Deleted(t, n, true), DeletedView(t, v, n), path).value)
  {
    hide SonsOk, SlotOk, Under, Deleted, DeletedView;
    DeleteKeeps(t, v, n);
    var t', v' := Deleted(t, n, true), DeletedView(t, v, n);
    ForestSons(t', v', {});
    if Resolve(t, v, path).Some? && !Under(t, n, Resolve(t, v, path).value) {
      var j := Resolve(t, v, path).value;
      DescendLive(t, v, ROOT, Tokens(path[1..]));
      DescendDeleted(t, v, n, ROOT, Tokens(path[1..]));
      DeleteOnly(t, v, n, j);
    }
    if Resolve(t', v', path).Some? {
      DescendLive(t', v', ROOT, Tokens(path[1..]));
      DeleteOnly(t, v, n, Resolve(t', v', path).value);
    }
  }
}
