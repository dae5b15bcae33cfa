/** What a path means: its non-empty tokens, followed through the sons with the first match. */
module Paths {
  import opened Common
  import opened Inodes
  import opened InodeCreation

  function FirstSlash(s: string): (k: nat)
    ensures k <= |s| && '/' !in s[..k] && (k < |s| ==> s[k] == '/')
  {
    if s == "" || s[0] == '/' then 0
    else
      var k := FirstSlash(s[1..]) + 1;
      assert s[..k] == [s[0]] + s[1..][..k - 1];
      k
  }

  /** The pieces of s between slashes. */
  function Split(s: string): (tokens: seq<string>)
    ensures |tokens| >= 1
    decreases |s|
  {
    var k := FirstSlash(s);
    if k == |s| then [s] else [s[..k]] + Split(s[k + 1..])
  }

  function NonEmpty(tokens: seq<string>): seq<string> {
    if tokens == [] then []
    else (if tokens[0] == "" then [] else [tokens[0]]) + NonEmpty(tokens[1..])
  }

  function Tokens(s: string): seq<string> {
    NonEmpty(Split(s))
  }

  predicate AllShort(tokens: seq<string>) {
    forall i :: 0 <= i < |tokens| ==> |tokens[i]| <= MAX_SIZE_NAME
  }

  /** None of the first k sons has the given name. */
  predicate NoneBefore(t: Table, sons: seq<nat>, k: nat, name: string)
    requires k <= |sons| && forall j :: 0 <= j < |sons| ==> sons[j] < |t|
  {
    forall j :: 0 <= j < k ==> t[sons[j]].name != name
  }

  /** The first of the sons with the given name. */
  function FindSon(t: Table, sons: seq<nat>, name: string): (r: Option<nat>)
    requires forall k :: 0 <= k < |sons| ==> sons[k] < |t|
    ensures r.Some? ==> r.value in sons && t[r.value].name == name
  {
    if sons == [] then None
    else if t[sons[0]].name == name then Some(sons[0])
    else FindSon(t, sons[1..], name)
  }

  /** The son found is the first with the name; none is found iff no son has it. */
  lemma {:induction false} FirstMatch(t: Table, sons: seq<nat>, name: string) returns (k: nat)
    requires forall k :: 0 <= k < |sons| ==> sons[k] < |t|
    ensures k <= |sons| && NoneBefore(t, sons, k, name)
    ensures FindSon(t, sons, name) == if k < |sons| then Some(sons[k]) else None
    ensures k < |sons| ==> t[sons[k]].name == name
  {
    if sons == [] || t[sons[0]].name == name {
      k := 0;
    } else {
      k := FirstMatch(t, sons[1..], name);
      assert forall j :: 0 < j < k + 1 ==> sons[j] == sons[1..][j - 1];
      k := k + 1;
    }
  }

  /** Sons are slots of the table. */
  ghost predicate SonsInTable(t: Table, v: View) {
    && |t| == |v.sons| == FS_NPAGES
    && forall i, k :: 0 <= i < FS_NPAGES && 0 <= k < |v.sons[i]| ==> v.sons[i][k] < FS_NPAGES
  }

  lemma ForestSons(t: Table, v: View, d: set<nat>)
    requires Forest(t, v, d)
    ensures SonsInTable(t, v)
  {
    forall i, k | 0 <= i < FS_NPAGES && 0 <= k < |v.sons[i]| ensures v.sons[i][k] < FS_NPAGES {
      assert SonsOk(t, v.sons[i], d, i);
    }
  }

  /** From a folder down, one son for each token. */
  ghost function Descend(t: Table, v: View, cur: nat, tokens: seq<string>): (r: Option<nat>)
    requires SonsInTable(t, v) && cur < FS_NPAGES
    ensures r.Some? ==> r.value < FS_NPAGES
    decreases |tokens|
  {
    if tokens == [] then Some(cur)
    else
      match FindSon(t, v.sons[cur], tokens[0])
      case None => None
      case Some(n) => Descend(t, v, n, tokens[1..])
  }

  /** Whether the last token of a relative path is empty. */
  predicate Trailing(rest: string) {
    rest == "" || rest[|rest| - 1] == '/'
  }

  /** The node that tokens lead to from a folder: no token over 16 characters, a son for every
      token, and a file only when no slash follows. */
  ghost function Follow(t: Table, v: View, cur: nat, tokens: seq<string>, trailing: bool): (r: Option<nat>)
    requires SonsInTable(t, v) && cur < FS_NPAGES
    ensures r.Some? ==> r.value < FS_NPAGES
  {
    if !AllShort(tokens) then None
    else
      match Descend(t, v, cur, tokens)
      case None => None
      case Some(n) => if t[n].kind == FILE && trailing then None else Some(n)
  }

  /** The node a relative path leads to. */
  ghost function Lookup(t: Table, v: View, cur: nat, rest: string): (r: Option<nat>)
    requires SonsInTable(t, v) && cur < FS_NPAGES
    ensures r.Some? ==> r.value < FS_NPAGES
  {
    Follow(t, v, cur, Tokens(rest), Trailing(rest))
  }

  /** The node an absolute path leads to. */
  ghost function Resolve(t: Table, v: View, path: string): (r: Option<nat>)
    requires SonsInTable(t, v)
    ensures r.Some? ==> r.value < FS_NPAGES
  {
    if path == "" || path[0] != '/' then None else Lookup(t, v, ROOT, path[1..])
  }

  // ----- Reading a path from the left

  lemma LastToken(rest: string)
    requires FirstSlash(rest) == |rest|
    ensures Tokens(rest) == if rest == "" then [] else [rest]
    ensures Trailing(rest) <==> rest == ""
  {
    hide FirstSlash, NonEmpty;
    SplitLast(rest);
    assert rest[..|rest|] == rest;
    SingleToken(rest);
  }

  lemma SplitLast(rest: string)
    requires FirstSlash(rest) == |rest|
    ensures Split(rest) == [rest]
  {
  }

  lemma SingleToken(token: string)
    ensures NonEmpty([token]) == if token == "" then [] else [token]
  {
    assert [token][1..] == [];
  }

  lemma FirstToken(rest: string, k: nat)
    requires k == FirstSlash(rest) < |rest|
    ensures Tokens(rest) == (if k == 0 then [] else [rest[..k]]) + Tokens(rest[k + 1..])
    ensures Trailing(rest) == Trailing(rest[k + 1..])
  {
    hide FirstSlash, Split;
    SplitFirst(rest, k);
    assert Split(rest)[0] == rest[..k] && Split(rest)[1..] == Split(rest[k + 1..]);
  }

  lemma SplitFirst(rest: string, k: nat)
    requires k == FirstSlash(rest) < |rest|
    ensures Split(rest) == [rest[..k]] + Split(rest[k + 1..])
  {
  }

  /** Where a path goes after a token found the node `son`. */
  ghost function NextStep(t: Table, v: View, rest: string, k: nat, son: Option<nat>): Option<nat>
    requires SonsInTable(t, v) && k <= |rest| && (son.Some? ==> son.value < FS_NPAGES)
  {
    if son.None? then None
    else if k == |rest| then son
    else if t[son.value].kind == FILE then None
    else Lookup(t, v, son.value, rest[k + 1..])
  }

  /** One turn of parse_path at a folder. */
  lemma LookupStep(t: Table, v: View, cur: nat, rest: string)
    requires Forest(t, v, {}) && cur < FS_NPAGES && t[cur].kind == FOLDER
    ensures SonsInTable(t, v)
    ensures FirstSlash(rest) > MAX_SIZE_NAME ==> Lookup(t, v, cur, rest) == None
    ensures rest == "" ==> Lookup(t, v, cur, rest) == Some(cur)
    ensures rest != "" && FirstSlash(rest) == 0 ==> Lookup(t, v, cur, rest) == Lookup(t, v, cur, rest[1..])
    ensures 0 < FirstSlash(rest) <= MAX_SIZE_NAME ==>
      var k := FirstSlash(rest);
      Lookup(t, v, cur, rest) == NextStep(t, v, rest, k, FindSon(t, v.sons[cur], rest[..k]))
  {
    hide *;
    ForestSons(t, v, {});
    var k := FirstSlash(rest);
    if k == |rest| {
      LastToken(rest);
      if k == 0 {
        NoStep(t, v, cur, rest);
      } else {
        assert rest[..k] == rest && [rest] == [rest] + [];
        TokenStep(t, v, cur, rest, rest, []);
        EndStep(t, v, cur, rest);
      }
    } else {
      FirstToken(rest, k);
      if k == 0 {
        assert [] + Tokens(rest[1..]) == Tokens(rest[1..]);
        SameLookup(t, v, cur, rest, rest[1..]);
      } else {
        TokenStep(t, v, cur, rest, rest[..k], Tokens(rest[k + 1..]));
        MiddleStep(t, v, cur, rest, k);
      }
    }
  }

  lemma NoStep(t: Table, v: View, cur: nat, rest: string)
    requires SonsInTable(t, v) && cur < FS_NPAGES && |t| == FS_NPAGES && t[cur].kind == FOLDER && Tokens(rest) == []
    ensures Lookup(t, v, cur, rest) == Some(cur)
  {
  }

  lemma SameLookup(t: Table, v: View, cur: nat, rest: string, more: string)
    requires SonsInTable(t, v) && cur < FS_NPAGES && Tokens(rest) == Tokens(more) && Trailing(rest) == Trailing(more)
    ensures Lookup(t, v, cur, rest) == Lookup(t, v, cur, more)
  {
    hide Tokens, Trailing;
  }

  lemma TokenStep(t: Table, v: View, cur: nat, rest: string, token: string, more: seq<string>)
    requires SonsInTable(t, v) && cur < FS_NPAGES && Tokens(rest) == [token] + more
    ensures |token| > MAX_SIZE_NAME ==> Lookup(t, v, cur, rest) == None
    ensures |token| <= MAX_SIZE_NAME ==>
      Lookup(t, v, cur, rest) ==
        match FindSon(t, v.sons[cur], token)
        case None => None
        case Some(n) => Follow(t, v, n, more, Trailing(rest))
  {
    hide Tokens, Trailing, FindSon;
    assert ([token] + more)[0] == token && ([token] + more)[1..] == more;
    assert forall i :: 0 <= i < |more| ==> ([token] + more)[i + 1] == more[i];
  }

  lemma EndStep(t: Table, v: View, cur: nat, rest: string)
    requires SonsInTable(t, v) && cur < FS_NPAGES && rest != "" && Trailing(rest) == false
    requires |rest| <= MAX_SIZE_NAME ==>
      Lookup(t, v, cur, rest) ==
        match FindSon(t, v.sons[cur], rest)
        case None => None
        case Some(n) => Follow(t, v, n, [], Trailing(rest))
    ensures |rest| <= MAX_SIZE_NAME ==>
      Lookup(t, v, cur, rest) == NextStep(t, v, rest, |rest|, FindSon(t, v.sons[cur], rest))
  {
    hide Lookup, FindSon, Trailing;
  }

  lemma MiddleStep(t: Table, v: View, cur: nat, rest: string, k: nat)
    requires Forest(t, v, {}) && SonsInTable(t, v) && cur < FS_NPAGES && k < |rest|
    requires Trailing(rest) == Trailing(rest[k + 1..])
    requires k <= MAX_SIZE_NAME ==>
      Lookup(t, v, cur, rest) ==
        match FindSon(t, v.sons[cur], rest[..k])
        case None => None
        case Some(n) => Follow(t, v, n, Tokens(rest[k + 1..]), Trailing(rest))
    ensures k <= MAX_SIZE_NAME ==>
      Lookup(t, v, cur, rest) == NextStep(t, v, rest, k, FindSon(t, v.sons[cur], rest[..k]))
  {
    hide FindSon, Tokens, Trailing, Forest, Descend, AllShort, Lookup;
    var son := FindSon(t, v.sons[cur], rest[..k]);
    if son.Some? {
      if t[son.value].kind == FILE {
        FileEnds(t, v, son.value, rest[k + 1..]);
      } else {
        LookupIsFollow(t, v, son.value, rest[k + 1..]);
      }
    }
  }

  lemma LookupIsFollow(t: Table, v: View, cur: nat, rest: string)
    requires SonsInTable(t, v) && cur < FS_NPAGES
    ensures Lookup(t, v, cur, rest) == Follow(t, v, cur, Tokens(rest), Trailing(rest))
  {
  }

  /** Past a file only slashes may follow for the descent to go on, and then a slash is last. */
  lemma FileEnds(t: Table, v: View, n: nat, more: string)
    requires Forest(t, v, {}) && n < FS_NPAGES && t[n].kind == FILE && SonsInTable(t, v)
    ensures Follow(t, v, n, Tokens(more), Trailing(more)) == None
  {
    hide Tokens, Trailing;
    assert SonsOk(t, v.sons[n], {}, n) && SlotOk(t, v.depth, n);
    assert v.sons[n] == [];
    if Tokens(more) == [] {
      NoTokens(more);
    }
  }

  lemma {:induction false} NoTokens(s: string)
    requires Tokens(s) == []
    ensures Trailing(s)
    decreases |s|
  {
    hide Tokens, Trailing;
    var k := FirstSlash(s);
    if k < |s| {
      FirstToken(s, k);
      NoTokens(s[k + 1..]);
    } else {
      LastToken(s);
    }
  }

  /** A path has no tokens iff it is made of slashes only. */
  lemma {:induction false} OnlySlashes(s: string)
    ensures Tokens(s) == [] <==> forall i :: 0 <= i < |s| ==> s[i] == '/'
    decreases |s|
  {
    hide Tokens, FirstSlash;
    var k := FirstSlash(s);
    if k == |s| {
      LastToken(s);
      if s != "" {
        assert s[..k][0] == s[0];
      }
    } else {
      FirstToken(s, k);
      OnlySlashes(s[k + 1..]);
      if k > 0 {
        assert s[..k][0] == s[0];
      } else {
        assert forall i :: 0 < i < |s| ==> s[i] == s[1..][i - 1];
      }
    }
  }

  // ----- Creation and paths

  lemma {:induction false} FindSonKeeps(t: Table, t': Table, sons: seq<nat>, more: seq<nat>, name: string)
    requires forall k :: 0 <= k < |sons| ==> sons[k] < |t| && sons[k] < |t'| && t[sons[k]].name == t'[sons[k]].name
    requires forall k :: 0 <= k < |more| ==> more[k] < |t'|
    ensures forall k :: 0 <= k < |sons + more| ==> (sons + more)[k] < |t'|
    ensures FindSon(t, sons, name).Some? ==> FindSon(t', sons + more, name) == FindSon(t, sons, name)
    ensures FindSon(t, sons, name).None? ==> FindSon(t', sons + more, name) == FindSon(t', more, name)
  {
    if sons == [] {
      assert sons + more == more;
    } else {
      assert (sons + more)[1..] == sons[1..] + more;
      FindSonKeeps(t, t', sons[1..], more, name);
    }
  }

  lemma CreatedNames(t: Table, v: View, i: nat, f: nat, name: string, kind: Kind, g: nat)
    requires Forest(t, v, {}) && i < FS_NPAGES && f < FS_NPAGES && g < FS_NPAGES && t[i].kind == EMPTY
    ensures forall k :: 0 <= k < |v.sons[g]| ==>
      var son := v.sons[g][k];
      son < FS_NPAGES && son != i && t[son].name == Created(t, i, f, name, kind)[son].name
  {
    EmptyApart(t, v, i);
    assert SonsOk(t, v.sons[g], {}, g);
  }

  lemma {:induction false} DescendKeeps(t: Table, v: View, i: nat, f: nat, name: string, kind: Kind, cur: nat,
                                        tokens: seq<string>)
    requires Forest(t, v, {}) && SonsInTable(t, v) && i < FS_NPAGES && f < FS_NPAGES && t[i].kind == EMPTY
    requires |v.depth| == FS_NPAGES && cur < FS_NPAGES
    requires SonsInTable(Created(t, i, f, name, kind), CreatedView(v, i, f))
    ensures Descend(t, v, cur, tokens).Some? ==>
      Descend(Created(t, i, f, name, kind), CreatedView(v, i, f), cur, tokens) == Descend(t, v, cur, tokens)
    decreases |tokens|
  {
    hide Forest;
    var t', v' := Created(t, i, f, name, kind), CreatedView(v, i, f);
    if tokens != [] && Descend(t, v, cur, tokens).Some? {
      CreatedNames(t, v, i, f, name, kind, cur);
      FindSonKeeps(t, t', v.sons[cur], if cur == f then [i] else [], tokens[0]);
      assert v'.sons[cur] == v.sons[cur] + if cur == f then [i] else [];
      var n := FindSon(t, v.sons[cur], tokens[0]).value;
      DescendKeeps(t, v, i, f, name, kind, n, tokens[1..]);
    }
  }

  /** A creation keeps the result of every path that resolved. */
  lemma CreateKeepsPaths(t: Table, v: View, i: nat, f: nat, name: string, kind: Kind, path: string)
    requires Forest(t, v, {}) && i < FS_NPAGES && f < FS_NPAGES
    requires t[i].kind == EMPTY && t[f].kind == FOLDER && kind != EMPTY && ValidName(name)
    ensures SonsInTable(t, v) && |v.depth| == FS_NPAGES
    ensures SonsInTable(Created(t, i, f, name, kind), CreatedView(v, i, f))
    ensures Resolve(t, v, path).Some? ==>
      Resolve(Created(t, i, f, name, kind), CreatedView(v, i, f), path) == Resolve(t, v, path)
  {
    hide SonsOk, SlotOk;
    ForestSons(t, v, {});
    CreateKeeps(t, v, i, f, name, kind);
    ForestSons(Created(t, i, f, name, kind), CreatedView(v, i, f), {});
    if Resolve(t, v, path).Some? {
      DescendKeeps(t, v, i, f, name, kind, ROOT, Tokens(path[1..]));
      DescendLive(t, v, ROOT, Tokens(path[1..]));
    }
  }

  /** What a descent from a live folder finds is live. */
  lemma {:induction false} DescendLive(t: Table, v: View, cur: nat, tokens: seq<string>)
    requires Forest(t, v, {}) && SonsInTable(t, v) && Live(t, cur)
    ensures Descend(t, v, cur, tokens).Some? ==> Live(t, Descend(t, v, cur, tokens).value)
    decreases |tokens|
  {
    if tokens != [] && Descend(t, v, cur, tokens).Some? {
      var n := FindSon(t, v.sons[cur], tokens[0]).value;
      assert SonsOk(t, v.sons[cur], {}, cur);
      assert n in v.sons[cur];
      DescendLive(t, v, n, tokens[1..]);
    }
  }

  // ----- The path of a new node

  lemma {:induction false} FirstSlashOf(a: string, b: string)
    ensures FirstSlash(a + "/" + b) == FirstSlash(a)
  {
    if a != "" {
      assert (a + "/" + b)[1..] == a[1..] + "/" + b;
      FirstSlashOf(a[1..], b);
    }
  }

  lemma {:induction false} NoSlash(s: string)
    requires '/' !in s
    ensures FirstSlash(s) == |s|
  {
    if s != "" {
      NoSlash(s[1..]);
    }
  }

  /** A slash between two paths concatenates their tokens. */
  lemma {:induction false} TokensOfJoin(a: string, b: string)
    ensures Tokens(a + "/" + b) == Tokens(a) + Tokens(b)
    decreases |a|
  {
    hide Tokens, FirstSlash;
    var s, k := a + "/" + b, FirstSlash(a);
    FirstSlashOf(a, b);
    FirstToken(s, k);
    assert s[..k] == a[..k];
    if k == |a| {
      LastToken(a);
      assert a[..k] == a && s[k + 1..] == b;
    } else {
      FirstToken(a, k);
      assert s[k + 1..] == a[k + 1..] + "/" + b;
      TokensOfJoin(a[k + 1..], b);
    }
  }

  lemma {:induction false} DescendJoin(t: Table, v: View, cur: nat, tokens: seq<string>, last: string)
    requires SonsInTable(t, v) && cur < FS_NPAGES
    ensures Descend(t, v, cur, tokens + [last]) ==
      match Descend(t, v, cur, tokens)
      case None => None
      case Some(f) => FindSon(t, v.sons[f], last)
    decreases |tokens|
  {
    hide FindSon;
    if tokens == [] {
      assert tokens + [last] == [last] && [last][1..] == [];
    } else {
      assert (tokens + [last])[1..] == tokens[1..] + [last];
      var son := FindSon(t, v.sons[cur], tokens[0]);
      if son.Some? {
        DescendJoin(t, v, son.value, tokens[1..], last);
      }
    }
  }

  lemma PlainTokens(rest: string, name: string)
    requires '/' !in name && name != ""
    ensures Tokens(rest + "/" + name) == Tokens(rest) + [name] && !Trailing(rest + "/" + name)
  {
    hide Tokens, FirstSlash;
    TokensOfJoin(rest, name);
    NoSlash(name);
    LastToken(name);
    var s := rest + "/" + name;
    assert s[|s| - 1] == name[|name| - 1];
  }

  /** In the new table, a name without a slash in the folder of a path leads to the elder node of
      that name if there is one, and else to the new node. */
  lemma NewResolves(t: Table, v: View, i: nat, f: nat, name: string, kind: Kind, path: string)
    requires Forest(t, v, {}) && i < FS_NPAGES && f < FS_NPAGES && SonsInTable(t, v) && |v.depth| == FS_NPAGES
    requires t[i].kind == EMPTY && t[f].kind == FOLDER && kind != EMPTY && ValidName(name) && '/' !in name
    requires Resolve(t, v, path) == Some(f)
    ensures SonsInTable(Created(t, i, f, name, kind), CreatedView(v, i, f))
    ensures Resolve(Created(t, i, f, name, kind), CreatedView(v, i, f), path + "/" + name) ==
      match FindSon(t, v.sons[f], name)
      case None => Some(i)
      case Some(elder) => Some(elder)
  {
    hide Forest, SonsOk, SlotOk, FindSon, Tokens, Descend, Created, CreatedView, Trailing;
    var t', v', rest := Created(t, i, f, name, kind), CreatedView(v, i, f), path[1..];
    assert (path + "/" + name)[1..] == rest + "/" + name;
    CreateKeepsPaths(t, v, i, f, name, kind, path);
    PlainTokens(rest, name);
    ResolvedShort(t', v', path, f);
    DescendJoin(t', v', ROOT, Tokens(rest), name);
    NewSon(t, v, i, f, name, kind);
    assert forall k :: 0 <= k <= |Tokens(rest)| ==>
      (Tokens(rest) + [name])[k] == if k < |Tokens(rest)| then Tokens(rest)[k] else name;
  }

  lemma ResolvedShort(t: Table, v: View, path: string, f: nat)
    requires SonsInTable(t, v) && Resolve(t, v, path) == Some(f)
    ensures path != "" && path[0] == '/' && AllShort(Tokens(path[1..]))
    ensures Descend(t, v, ROOT, Tokens(path[1..])) == Some(f)
  {
  }

  lemma NewSon(t: Table, v: View, i: nat, f: nat, name: string, kind: Kind)
    requires Forest(t, v, {}) && i < FS_NPAGES && f < FS_NPAGES && t[i].kind == EMPTY && |v.depth| == FS_NPAGES
    requires SonsInTable(t, v) && SonsInTable(Created(t, i, f, name, kind), CreatedView(v, i, f))
    ensures FindSon(Created(t, i, f, name, kind), CreatedView(v, i, f).sons[f], name) ==
      match FindSon(t, v.sons[f], name)
      case None => Some(i)
      case Some(elder) => Some(elder)
  {
    hide Forest;
    var t' := Created(t, i, f, name, kind);
    CreatedNames(t, v, i, f, name, kind, f);
    FindSonKeeps(t, t', v.sons[f], [i], name);
  }

  // ----- What a path leads to, without the recursion

  /** son is the first of the sons of father that has this name. */
  ghost predicate FirstNamed(t: Table, v: View, father: nat, son: nat, name: string)
    requires SonsInTable(t, v)
  {
    && father < FS_NPAGES
    && exists k ::
         && 0 <= k < |v.sons[father]| && v.sons[father][k] == son && t[son].name == name
         && NoneBefore(t, v.sons[father], k, name)
  }

  /** nodes goes down from cur, one step for each token. */
  ghost predicate WayDown(t: Table, v: View, cur: nat, tokens: seq<string>, nodes: seq<nat>)
    requires SonsInTable(t, v)
  {
    && |nodes| == |tokens| + 1 && nodes[0] == cur
    && forall k :: 0 <= k < |tokens| ==> FirstNamed(t, v, nodes[k], nodes[k + 1], tokens[k])
  }

  lemma FoundIsFirst(t: Table, v: View, father: nat, son: nat, name: string)
    requires SonsInTable(t, v) && father < FS_NPAGES
    ensures FindSon(t, v.sons[father], name) == Some(son) <==> FirstNamed(t, v, father, son, name)
  {
    hide FindSon;
    var sons := v.sons[father];
    var k := FirstMatch(t, sons, name);
    if j :| 0 <= j < |sons| && sons[j] == son && t[son].name == name && NoneBefore(t, sons, j, name) {
      assert k == j;
    }
  }

  lemma {:induction false} DescendIff(t: Table, v: View, cur: nat, tokens: seq<string>, n: nat)
    requires SonsInTable(t, v) && cur < FS_NPAGES
    ensures Descend(t, v, cur, tokens) == Some(n) <==>
      exists nodes :: WayDown(t, v, cur, tokens, nodes) && nodes[|tokens|] == n
    decreases |tokens|
  {
    hide FindSon, FirstNamed;
    if tokens == [] {
      assert Descend(t, v, cur, tokens) == Some(n) ==> WayDown(t, v, cur, tokens, [n]);
    } else {
      var son := FindSon(t, v.sons[cur], tokens[0]);
      if Descend(t, v, cur, tokens) == Some(n) {
        DescendIff(t, v, son.value, tokens[1..], n);
        FoundIsFirst(t, v, cur, son.value, tokens[0]);
        var rest :| WayDown(t, v, son.value, tokens[1..], rest) && rest[|tokens| - 1] == n;
        var nodes := [cur] + rest;
        forall k | 0 <= k < |tokens| ensures FirstNamed(t, v, nodes[k], nodes[k + 1], tokens[k]) {
          assert k > 0 ==> FirstNamed(t, v, rest[k - 1], rest[k], tokens[1..][k - 1]);
        }
        assert WayDown(t, v, cur, tokens, nodes) && nodes[|tokens|] == n;
      }
      if nodes :| WayDown(t, v, cur, tokens, nodes) && nodes[|tokens|] == n {
        assert FirstNamed(t, v, nodes[0], nodes[1], tokens[0]);
        FoundIsFirst(t, v, cur, nodes[1], tokens[0]);
        DescendIff(t, v, nodes[1], tokens[1..], n);
        var rest := nodes[1..];
        forall k | 0 <= k < |tokens| - 1 ensures FirstNamed(t, v, rest[k], rest[k + 1], tokens[1..][k]) {
          assert FirstNamed(t, v, nodes[k + 1], nodes[k + 2], tokens[k + 1]);
        }
        assert WayDown(t, v, nodes[1], tokens[1..], rest) && rest[|tokens| - 1] == n;
      }
    }
  }

  /** A path leads to node n iff it starts with a slash, none of its tokens has more than 16
      characters, a way of first matches leads from the root down its tokens to n, and no slash
      is last if n is a file. */
  lemma ResolvesIff(t: Table, v: View, path: string, n: nat)
    requires SonsInTable(t, v)
    ensures Resolve(t, v, path) == Some(n) <==>
      && path != "" && path[0] == '/' && AllShort(Tokens(path[1..]))
      && (exists nodes :: WayDown(t, v, ROOT, Tokens(path[1..]), nodes) && nodes[|Tokens(path[1..])|] == n)
      && n < FS_NPAGES && (t[n].kind == FILE ==> path[|path| - 1] != '/')
  {
    hide Tokens, WayDown, Descend;
    if path != "" && path[0] == '/' {
      DescendIff(t, v, ROOT, Tokens(path[1..]), n);
      assert Trailing(path[1..]) <==> path[|path| - 1] == '/';
    }
  }

  /** Tokens are determined by this and TokensOfJoin: a piece without slashes is one token. */
  lemma TokensOfPiece(s: string)
    requires '/' !in s
    ensures Tokens(s) == if s == "" then [] else [s]
  {
    hide Tokens;
    LastToken(s);
  }
}
