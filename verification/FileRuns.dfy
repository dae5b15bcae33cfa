/** Files among all other operations of the file system: what a file holds after any run of
    creations, deletions, openings, closings, listings and writes. */
module FileRuns {
  import opened Inodes
  import opened VfsOperations
  import opened VfsRuns
  import opened FileContents

  /** The inode table with its descriptors, and the data block of each inode, which nothing but
      writing touches: a deletion leaves its bytes. */
  datatype Store = Store(s: System, blocks: seq<seq<Byte>>)

  /** Any operation but one of writing, or a write or append to a file. */
  datatype Call = Names(op: Op) | Data(w: FileOp)

  ghost predicate Valid(d: Store) {
    && Good(d.s) && |d.s.t| == |d.blocks| == FS_NPAGES
    && (forall i :: 0 <= i < FS_NPAGES ==> |d.blocks[i]| == FILE_MAX_SIZE && d.s.t[i].size <= FILE_MAX_SIZE)
  }

  /** The first `size` bytes of each block. */
  ghost function Files(d: Store): (files: FileContents.Files)
    requires Valid(d)
    ensures |files| == FS_NPAGES && Bounded(files)
    ensures forall i :: 0 <= i < FS_NPAGES ==> files[i] == d.blocks[i][..d.s.t[i].size]
  {
    seq(FS_NPAGES, i requires 0 <= i < FS_NPAGES => d.blocks[i][..d.s.t[i].size])
  }

  ghost predicate Enabled(d: Store, c: Call)
    requires Valid(d)
  {
    match c
    case Names(op) => !op.Resize? && VfsOperations.Enabled(d.s, op)
    case Data(w) => OpOk(Files(d), w) && d.s.t[w.inode].kind == FILE
  }

  /** reset_inode if it is a write, and then write_inode: bytes behind those of the file, and the
      new size. */
  ghost function Next(d: Store, c: Call): Store
    requires Valid(d) && Enabled(d, c)
  {
    match c
    case Names(op) => d.(s := Advance(d.s, op))
    case Data(w) =>
      var used := if w.Write? then 0 else d.s.t[w.inode].size;
      var n := Fitting(used, Signed(w.len));
      Store(Advance(d.s, Resize(w.inode, used + n)),
            d.blocks[w.inode := d.blocks[w.inode][..used] + w.data[..n] + d.blocks[w.inode][used + n..]])
  }

  /** What an operation on names does to the files: those that are no more have nothing. */
  lemma NamesFiles(d: Store, op: Op)
    requires Valid(d) && Enabled(d, Names(op))
    ensures var d' := Next(d, Names(op));
      Valid(d') && forall i :: 0 <= i < FS_NPAGES ==>
        Files(d')[i] == if d'.s.t[i].kind == EMPTY then [] else Files(d)[i]
  {
    hide Good, VfsOperations.Enabled, Step;
    forall i | 0 <= i < FS_NPAGES ensures
      && |Step(d.s, op).t| == FS_NPAGES
      && Step(d.s, op).t[i].size == if Step(d.s, op).t[i].kind == EMPTY then 0 else d.s.t[i].size
    {
      StepSizes(d.s, op, i);
    }
    StepSizes(d.s, op, 0);
  }

  /** What a write or append does to the files is what FileContents says. */
  lemma DataFiles(d: Store, w: FileOp)
    requires Valid(d) && Enabled(d, Data(w))
    ensures var d' := Next(d, Data(w));
      && Valid(d') && Files(d') == AfterOp(Files(d), w)
      && forall i :: 0 <= i < FS_NPAGES ==> d'.s.t[i].kind == d.s.t[i].kind
  {
    hide Good;
    var used := if w.Write? then 0 else d.s.t[w.inode].size;
    var n := Fitting(used, Signed(w.len));
    var d', block := Next(d, Data(w)), d.blocks[w.inode];
    assert d'.blocks[w.inode][..used + n] == block[..used] + w.data[..n];
    assert used == 0 ==> block[..used] + w.data[..n] == [] + w.data[..n];
  }

  // ----- Runs

  ghost predicate CanRun(d: Store, calls: seq<Call>)
    requires Valid(d)
    decreases |calls|
  {
    calls == [] || (Enabled(d, calls[0]) && Valid(Next(d, calls[0])) && CanRun(Next(d, calls[0]), calls[1..]))
  }

  ghost function Run(d: Store, calls: seq<Call>): (d': Store)
    requires Valid(d) && CanRun(d, calls)
    ensures Valid(d')
    decreases |calls|
  {
    if calls == [] then d else Run(Next(d, calls[0]), calls[1..])
  }

  /** Every call that the file system allows leads on. */
  lemma NextValid(d: Store, c: Call)
    requires Valid(d) && Enabled(d, c)
    ensures Valid(Next(d, c))
  {
    hide Valid, Enabled, Next;
    match c
    case Names(op) => NamesFiles(d, op);
    case Data(w) => DataFiles(d, w);
  }

  /** No call of the run deletes inode i, or writes it anew. */
  ghost predicate Spared(d: Store, calls: seq<Call>, i: nat)
    requires Valid(d) && CanRun(d, calls) && i < FS_NPAGES
    decreases |calls|
  {
    calls == [] ||
    (&& Next(d, calls[0]).s.t[i].kind != EMPTY
     && !(calls[0].Data? && calls[0].w.Write? && calls[0].w.inode == i)
     && Spared(Next(d, calls[0]), calls[1..], i))
  }

  /** All that the run asks to append to file i. */
  function Appended(calls: seq<Call>, i: nat): seq<Byte>
    requires forall k :: 0 <= k < |calls| && calls[k].Data? ==>
      calls[k].w.len < 0x1_0000_0000 && Signed(calls[k].w.len) <= |calls[k].w.data|
  {
    if calls == [] then []
    else (if calls[0].Data? && calls[0].w.inode == i then Asked(calls[0].w) else []) + Appended(calls[1..], i)
  }

  lemma {:induction false} LengthsOk(d: Store, calls: seq<Call>)
    requires Valid(d) && CanRun(d, calls)
    ensures forall k :: 0 <= k < |calls| && calls[k].Data? ==>
      calls[k].w.len < 0x1_0000_0000 && Signed(calls[k].w.len) <= |calls[k].w.data|
    decreases |calls|
  {
    hide Valid, Next;
    if calls != [] {
      LengthsOk(Next(d, calls[0]), calls[1..]);
      forall k | 0 <= k < |calls| && calls[k].Data?
        ensures calls[k].w.len < 0x1_0000_0000 && Signed(calls[k].w.len) <= |calls[k].w.data|
      {
        assert k > 0 ==> calls[k] == calls[1..][k - 1];
      }
    }
  }

  /** Whatever is created, deleted, opened, closed, listed and written elsewhere in a run, a file
      that stays holds in the end the first 4096 bytes of what it held and all that was appended. */
  lemma {:induction false} ContentsSurvive(d: Store, calls: seq<Call>, i: nat)
    requires Valid(d) && CanRun(d, calls) && i < FS_NPAGES && Spared(d, calls, i)
    ensures forall k :: 0 <= k < |calls| && calls[k].Data? ==>
      calls[k].w.len < 0x1_0000_0000 && Signed(calls[k].w.len) <= |calls[k].w.data|
    ensures Files(Run(d, calls))[i] == Clip(Files(d)[i] + Appended(calls, i))
    decreases |calls|
  {
    hide Valid, Next, Enabled, Asked, Fitting, Clip;
    LengthsOk(d, calls);
    if calls == [] {
      Unclipped(Files(d)[i]);
    } else {
      var d1, rest := Next(d, calls[0]), calls[1..];
      LengthsOk(d1, rest);
      ContentsSurvive(d1, rest, i);
      CallContents(d, calls[0], i);
      if calls[0].Data? && calls[0].w.inode == i {
        ClipStep(Files(d)[i], calls[0].w, Appended(rest, i));
      } else {
        assert [] + Appended(rest, i) == Appended(rest, i);
      }
    }
  }

  lemma Unclipped(s: seq<Byte>)
    requires |s| <= FILE_MAX_SIZE
    ensures Clip(s + []) == s
  {
    assert s + [] == s;
  }

  lemma CallContents(d: Store, c: Call, i: nat)
    requires Valid(d) && Enabled(d, c) && i < FS_NPAGES && Valid(Next(d, c))
    requires Next(d, c).s.t[i].kind != EMPTY
    requires !(c.Data? && c.w.Write? && c.w.inode == i)
    ensures c.Data? && c.w.inode == i ==>
      && c.w.len < 0x1_0000_0000 && Signed(c.w.len) <= |c.w.data|
      && var n := Fitting(|Files(d)[i]|, Signed(c.w.len));
      n <= |c.w.data| && Files(Next(d, c))[i] == Files(d)[i] + c.w.data[..n]
    ensures !(c.Data? && c.w.inode == i) ==> Files(Next(d, c))[i] == Files(d)[i]
  {
    hide Good, Next, VfsOperations.Enabled;
    match c
    case Names(op) => NamesFiles(d, op);
    case Data(w) => DataFiles(d, w);
  }
}
