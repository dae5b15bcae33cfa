/** alloc_inode: first free slot, linked at the tail of its father's sons. */
module InodeCreation {
  import opened Inodes

  function FirstEmpty(t: Table, from: nat): (i: nat)
    requires from <= |t|
    ensures from <= i <= |t| && (forall j :: from <= j < i ==> t[j].kind != EMPTY) && (i < |t| ==> t[i].kind == EMPTY)
    decreases |t| - from
  {
    if from == |t| || t[from].kind == EMPTY then from else FirstEmpty(t, from + 1)
  }

  predicate ValidName(name: string) {
    1 <= |name| <= MAX_SIZE_NAME && '\0' !in name
  }

  /** What linking slot i at the end of f's sons does to slot j. */
  function LinkedSlot(t: Table, i: nat, f: nat, j: nat): Inode
    requires i < |t| && f < |t| && j < |t|
  {
    if j == f && t[f].firstSon == NIL then t[j].(firstSon := i)
    else if t[j].kind != EMPTY && j != ROOT && t[j].father == f && t[j].brother == NIL then t[j].(brother := i)
    else t[j]
  }

  /** The table after slot i became the last son of folder f. */
  function Created(t: Table, i: nat, f: nat, name: string, kind: Kind): (t': Table)
    requires i < |t| && f < |t|
    ensures |t'| == |t|
    ensures forall j :: 0 <= j < |t| ==>
      t'[j] == (if j == i then t[i].(kind := kind, name := name, father := f) else LinkedSlot(t, i, f, j))
  {
    seq(|t|, j requires 0 <= j < |t| =>
          if j == i then t[i].(kind := kind, name := name, father := f) else LinkedSlot(t, i, f, j))
  }

  function CreatedView(v: View, i: nat, f: nat): View
    requires i < |v.sons| == |v.depth| && f < |v.sons|
  {
    View(v.sons[f := v.sons[f] + [i]], v.depth[i := v.depth[f] + 1])
  }

  /** Within a folder the only son without a next brother is the last one. */
  lemma OnlyLast(t: Table, v: View, f: nat, j: nat)
    requires Forest(t, v, {}) && f < FS_NPAGES && IsSon(t, {}, f, j)
    ensures t[j].brother == NIL <==> v.sons[f] != [] && j == v.sons[f][|v.sons[f]| - 1]
    ensures v.sons[f] != [] && j in v.sons[f]
  {
    assert SonsOk(t, v.sons[f], {}, f);
    var k :| 0 <= k < |v.sons[f]| && v.sons[f][k] == j;
    assert t[v.sons[f][k]].brother == After(v.sons[f], k);
  }

  /** An empty slot is nobody's son, father or brother. */
  lemma EmptyApart(t: Table, v: View, i: nat)
    requires Forest(t, v, {}) && i < FS_NPAGES && t[i].kind == EMPTY
    ensures forall f :: 0 <= f < FS_NPAGES ==> i !in v.sons[f]
    ensures v.sons[i] == []
    ensures forall j :: Live(t, j) && j != ROOT ==> t[j].father != i
  {
    forall f | 0 <= f < FS_NPAGES ensures i !in v.sons[f] {
      assert SonsOk(t, v.sons[f], {}, f);
    }
    assert SonsOk(t, v.sons[i], {}, i);
    forall j | Live(t, j) && j != ROOT ensures t[j].father != i {
      assert SlotOk(t, v.depth, j);
    }
    assert SlotOk(t, v.depth, i);
  }

  lemma CreatedSlots(t: Table, v: View, i: nat, f: nat, name: string, kind: Kind, j: nat)
    requires Forest(t, v, {}) && i < FS_NPAGES && f < FS_NPAGES && j < FS_NPAGES
    requires t[i].kind == EMPTY && t[f].kind == FOLDER && kind != EMPTY && ValidName(name)
    ensures SlotOk(Created(t, i, f, name, kind), CreatedView(v, i, f).depth, j)
  {
    EmptyApart(t, v, i);
    assert SlotOk(t, v.depth, j) && SlotOk(t, v.depth, i) && SlotOk(t, v.depth, f);
    var t' := Created(t, i, f, name, kind);
    if j != i && Live(t, j) && j != ROOT {
      assert t'[t[j].father].kind == t[t[j].father].kind;
    }
  }

  /** The sons of folders other than f keep their chains. */
  lemma OtherSons(t: Table, v: View, i: nat, f: nat, name: string, kind: Kind, g: nat)
    requires Forest(t, v, {}) && i < FS_NPAGES && f < FS_NPAGES && g < FS_NPAGES && g != f
    requires t[i].kind == EMPTY && t[f].kind == FOLDER && kind != EMPTY
    ensures SonsOk(Created(t, i, f, name, kind), v.sons[g], {}, g)
  {
    EmptyApart(t, v, i);
    var t', s := Created(t, i, f, name, kind), v.sons[g];
    assert SonsOk(t, s, {}, g);
    assert SlotOk(t, v.depth, i);
    forall k | 0 <= k < |s| ensures t'[s[k]].brother == After(s, k) {
      assert s[k] in s && IsSon(t, {}, g, s[k]);
    }
    assert t'[g].firstSon == First(s);
    forall j: nat ensures j in s <==> IsSon(t', {}, g, j) {
    }
  }

  lemma NewSons(t: Table, v: View, i: nat, f: nat, name: string, kind: Kind)
    requires Forest(t, v, {}) && i < FS_NPAGES && f < FS_NPAGES
    requires t[i].kind == EMPTY && t[f].kind == FOLDER && kind != EMPTY
    ensures SonsOk(Created(t, i, f, name, kind), v.sons[f] + [i], {}, f)
  {
    hide Forest, SonsOk;
    EmptyApart(t, v, i);
    Parts(t, v, f, i);
    AppendedSons(t, v.sons[f], v.depth, i, f, name, kind);
  }

  lemma Parts(t: Table, v: View, i: nat, j: nat)
    requires Forest(t, v, {}) && i < FS_NPAGES && j < FS_NPAGES
    ensures |t| == |v.sons| == FS_NPAGES && t[ROOT].kind == FOLDER
    ensures SonsOk(t, v.sons[i], {}, i) && SlotOk(t, v.depth, j)
  {
  }

  lemma AppendedSons(t: Table, s: seq<nat>, depth: seq<nat>, i: nat, f: nat, name: string, kind: Kind)
    requires SonsOk(t, s, {}, f) && SlotOk(t, depth, i) && i !in s && i != ROOT
    requires t[i].kind == EMPTY && t[f].kind == FOLDER && kind != EMPTY
    ensures SonsOk(Created(t, i, f, name, kind), s + [i], {}, f)
  {
    hide IsSon;
    var t', s' := Created(t, i, f, name, kind), s + [i];
    forall k | 0 <= k < |s'| ensures t'[s'[k]].brother == After(s', k) {
      if k < |s| {
        assert s[k] in s && IsSon(t, {}, f, s[k]);
        assert t[s[k]].brother == After(s, k);
        SonFacts(t, f, s[k]);
      }
    }
    assert t'[f].firstSon == First(s');
    forall j: nat ensures j in s' <==> IsSon(t', {}, f, j) {
      CreatedSon(t, i, f, name, kind, j);
      assert j in s <==> IsSon(t, {}, f, j);
      assert j in s' <==> j in s || j == i;
    }
  }

  lemma SonFacts(t: Table, f: nat, j: nat)
    requires IsSon(t, {}, f, j)
    ensures Live(t, j) && j != ROOT && t[j].father == f
  {
  }

  lemma CreatedSon(t: Table, i: nat, f: nat, name: string, kind: Kind, j: nat)
    requires |t| == FS_NPAGES && i < FS_NPAGES && f < FS_NPAGES && i != ROOT && kind != EMPTY && t[i].kind == EMPTY
    ensures IsSon(Created(t, i, f, name, kind), {}, f, j) <==> IsSon(t, {}, f, j) || j == i
  {
  }

  /** Creation keeps the forest well-formed: f's sons gain i at the end. */
  lemma CreateKeeps(t: Table, v: View, i: nat, f: nat, name: string, kind: Kind)
    requires Forest(t, v, {}) && i < FS_NPAGES && f < FS_NPAGES
    requires t[i].kind == EMPTY && t[f].kind == FOLDER && kind != EMPTY && ValidName(name)
    ensures Forest(Created(t, i, f, name, kind), CreatedView(v, i, f), {})
  {
    hide SonsOk, SlotOk;
    var t', v' := Created(t, i, f, name, kind), CreatedView(v, i, f);
    forall j | 0 <= j < FS_NPAGES ensures SlotOk(t', v'.depth, j) {
      CreatedSlots(t, v, i, f, name, kind, j);
    }
    forall g | 0 <= g < FS_NPAGES ensures SonsOk(t', v'.sons[g], {}, g) {
      if g == f {
        NewSons(t, v, i, f, name, kind);
      } else {
        OtherSons(t, v, i, f, name, kind, g);
      }
    }
  }

  /** Creation fails iff the whole table is reachable from the root. */
  lemma FullIsReachable(t: Table, v: View)
    requires Forest(t, v, {})
    ensures FirstEmpty(t, 0) == FS_NPAGES <==> forall j: nat :: j < FS_NPAGES ==> Under(t, ROOT, j)
  {
    hide Forest, Under;
    assert |t| == FS_NPAGES by { TableSize(t, v); }
    forall j: nat | j < FS_NPAGES ensures t[j].kind != EMPTY <==> Under(t, ROOT, j) {
      LiveIsReachable(t, v, j);
    }
  }

  lemma TableSize(t: Table, v: View)
    requires Forest(t, v, {})
    ensures |t| == FS_NPAGES
  {
  }
}
