/** File contents on values: what runs of writes leave in a file, and what a read gives. */
module FileContents {

  import opened Inodes

  type Byte = x: int | 0 <= x < 256 witness 0

  // ----- Writing

  /** An unsigned length as the int that write_inode and read_inode get. */
  function Signed(len: nat): int
    requires len < 0x1_0000_0000
  {
    if len < 0x8000_0000 then len else len - 0x1_0000_0000
  }

  /** What fits of a piece of data behind `used` bytes; a length that is not positive adds nothing. */
  function Fitting(used: nat, size: int): (n: nat)
    requires used <= FILE_MAX_SIZE
  {
    if size <= 0 then 0 else if size > FILE_MAX_SIZE - used then FILE_MAX_SIZE - used else size
  }

  /** write_file starts the file anew, append_file goes on at its end. */
  datatype FileOp = Write(inode: nat, data: seq<Byte>, len: nat) | Append(inode: nat, data: seq<Byte>, len: nat)

  type Files = seq<seq<Byte>>

  predicate Bounded(files: Files) {
    forall i :: 0 <= i < |files| ==> |files[i]| <= FILE_MAX_SIZE
  }

  predicate OpOk(files: Files, op: FileOp) {
    op.inode < |files| && op.len < 0x1_0000_0000 && Signed(op.len) <= |op.data|
  }

  /** The bytes that an operation asks to store. */
  function Asked(op: FileOp): seq<Byte>
    requires op.len < 0x1_0000_0000 && Signed(op.len) <= |op.data|
  {
    if Signed(op.len) < 0 then [] else op.data[..Signed(op.len)]
  }

  function Before(files: Files, op: FileOp): seq<Byte>
    requires op.inode < |files|
  {
    if op.Write? then [] else files[op.inode]
  }

  /** What the operation returns. */
  function Returned(files: Files, op: FileOp): nat
    requires Bounded(files) && OpOk(files, op)
  {
    Fitting(|Before(files, op)|, Signed(op.len))
  }

  function AfterOp(files: Files, op: FileOp): (files': Files)
    requires Bounded(files) && OpOk(files, op)
    ensures |files'| == |files| && Bounded(files')
  {
    files[op.inode := Before(files, op) + op.data[..Returned(files, op)]]
  }

  predicate AllOk(files: Files, ops: seq<FileOp>) {
    forall k :: 0 <= k < |ops| ==> OpOk(files, ops[k])
  }

  function AfterOps(files: Files, ops: seq<FileOp>): (files': Files)
    requires Bounded(files) && AllOk(files, ops)
    ensures |files'| == |files| && Bounded(files')
    decreases |ops|
  {
    if ops == [] then files else AfterOps(AfterOp(files, ops[0]), ops[1..])
  }

  /** All that a run asks to store in file i. */
  function AllAsked(ops: seq<FileOp>, i: nat): seq<Byte>
    requires forall k :: 0 <= k < |ops| ==> ops[k].len < 0x1_0000_0000 && Signed(ops[k].len) <= |ops[k].data|
  {
    if ops == [] then [] else (if ops[0].inode == i then Asked(ops[0]) else []) + AllAsked(ops[1..], i)
  }

  /** The sum of what the operations of a run on file i return. */
  function SumReturned(files: Files, ops: seq<FileOp>, i: nat): nat
    requires Bounded(files) && AllOk(files, ops)
    decreases |ops|
  {
    if ops == [] then 0
    else
      (if ops[0].inode == i then Returned(files, ops[0]) else 0)
      + SumReturned(AfterOp(files, ops[0]), ops[1..], i)
  }

  /** The first 4096 bytes. */
  function Clip(s: seq<Byte>): seq<Byte> {
    if |s| <= FILE_MAX_SIZE then s else s[..FILE_MAX_SIZE]
  }

  predicate NoWrites(ops: seq<FileOp>, i: nat) {
    forall k :: 0 <= k < |ops| ==> ops[k].Write? ==> ops[k].inode != i
  }

  lemma ClipStep(a: seq<Byte>, op: FileOp, rest: seq<Byte>)
    requires |a| <= FILE_MAX_SIZE && op.len < 0x1_0000_0000 && Signed(op.len) <= |op.data|
    ensures var n := Fitting(|a|, Signed(op.len));
      && n <= |op.data| && a + op.data[..n] == Clip(a + Asked(op))
      && Clip(a + op.data[..n] + rest) == Clip(a + (Asked(op) + rest))
  {
    var n := Fitting(|a|, Signed(op.len));
    assert op.data[..n] == Asked(op)[..n];
    if n < |Asked(op)| {
      assert (a + Asked(op))[..FILE_MAX_SIZE] == a + Asked(op)[..n];
      assert (a + op.data[..n] + rest)[..FILE_MAX_SIZE] == a + op.data[..n];
      assert (a + (Asked(op) + rest))[..FILE_MAX_SIZE] == a + Asked(op)[..n];
    } else {
      assert Asked(op)[..n] == Asked(op);
      assert a + Asked(op) + rest == a + (Asked(op) + rest);
    }
  }

  /** Whatever is written to other files in between, appending to a file gives the first 4096
      bytes of its contents and all that was asked, and the returned numbers add up to its growth. */
  lemma {:induction false} AppendsRun(files: Files, ops: seq<FileOp>, i: nat)
    requires Bounded(files) && AllOk(files, ops) && NoWrites(ops, i) && i < |files|
    ensures AfterOps(files, ops)[i] == Clip(files[i] + AllAsked(ops, i))
    ensures SumReturned(files, ops, i) == |AfterOps(files, ops)[i]| - |files[i]|
    decreases |ops|
  {
    if ops == [] {
      assert files[i] + [] == files[i];
    } else {
      hide Asked, Fitting, Clip;
      var files1 := AfterOp(files, ops[0]);
      AppendsRun(files1, ops[1..], i);
      if ops[0].inode == i {
        ClipStep(files[i], ops[0], AllAsked(ops[1..], i));
      } else {
        assert [] + AllAsked(ops[1..], i) == AllAsked(ops[1..], i);
      }
    }
  }

  /** A write and any run of appends: the first 4096 bytes of all that was asked, and the returned
      numbers, the write's included, add up to the size. */
  lemma WriteThenAppends(files: Files, first: FileOp, ops: seq<FileOp>)
    requires Bounded(files) && first.Write? && OpOk(files, first)
    requires AllOk(files, ops) && NoWrites(ops, first.inode)
    ensures AllOk(AfterOp(files, first), ops)
    ensures var files' := AfterOps(AfterOp(files, first), ops);
      && files'[first.inode] == Clip(Asked(first) + AllAsked(ops, first.inode))
      && Returned(files, first) + SumReturned(AfterOp(files, first), ops, first.inode) == |files'[first.inode]|
  {
    hide Asked, Fitting, Clip;
    var i, more := first.inode, AllAsked(ops, first.inode);
    AppendsRun(AfterOp(files, first), ops, i);
    ClipStep([], first, more);
    assert [] + (Asked(first) + more) == Asked(first) + more;
  }

  /** A run changes only the files it names. */
  lemma {:induction false} OthersKept(files: Files, ops: seq<FileOp>, i: nat)
    requires Bounded(files) && AllOk(files, ops) && i < |files|
    requires forall k :: 0 <= k < |ops| ==> ops[k].inode != i
    ensures AfterOps(files, ops)[i] == files[i]
    decreases |ops|
  {
    if ops != [] {
      OthersKept(AfterOp(files, ops[0]), ops[1..], i);
    }
  }

  // ----- Reading

  /** An int in unsigned arithmetic, as read_inode compares and subtracts. */
  function Unsigned(n: int): nat {
    n % 0x1_0000_0000
  }

  /** How many bytes read_inode sets out to copy. The second test takes the number of inodes for
      the size of a block, and the end of the request for the end of what the first test left of it. */
  function ToRead(fsize: nat, pos: nat, size: int): int {
    if pos + size >= FS_NPAGES then FS_NPAGES - pos
    else if Unsigned(pos + size) >= fsize then Unsigned(fsize - pos)
    else size
  }

  /** The bytes that memcpy copies for a count: whole words, and at least one. */
  function InWords(n: int): (bytes: nat)
    ensures bytes >= 8 && bytes >= n && bytes % 8 == 0 && (n > 0 ==> bytes < n + 8)
  {
    if n <= 8 then 8 else 8 + InWords(n - 8)
  }

  function Min(a: int, b: int): int {
    if a <= b then a else b
  }

  /** For every unsigned length, and every position within the file: a read gives what is there,
      up to the length asked, iff one of these holds: the request ends within the first 128 bytes,
      or at byte 128 of a file that goes so far; the file has 128 bytes exactly; or the length, as
      an int, is negative and leads to before the block. The last three are accidents. In terms of
      the end of the request: behind byte 127 of the block all up to there is counted, wherever the
      file ends, and before it all up to the end of the file or of the request. */
  lemma ReadIsExact(fsize: nat, pos: nat, len: nat)
    requires pos <= fsize <= FILE_MAX_SIZE && len < 0x1_0000_0000
    ensures ToRead(fsize, pos, Signed(len)) == Min(len, fsize - pos) <==>
      if len < 0x8000_0000 then
        pos + len < FS_NPAGES || (pos + len == FS_NPAGES && fsize >= FS_NPAGES) || fsize == FS_NPAGES
      else
        pos + len < 0x1_0000_0000
    ensures var end := pos + Signed(len);
      ToRead(fsize, pos, Signed(len)) ==
        if end >= FS_NPAGES then FS_NPAGES - pos else if 0 <= end < fsize then Signed(len) else fsize - pos
  {
    UnsignedSmall(fsize - pos);
    if 0 <= pos + Signed(len) {
      UnsignedSmall(pos + Signed(len));
    } else {
      UnsignedNegative(pos + Signed(len));
    }
  }

  /** From a position behind the end of the file, what the first test makes of it is taken for an
      unsigned number. */
  lemma ReadPastEnd(fsize: nat, pos: nat, len: nat)
    requires fsize < pos < 0x8000_0000 && fsize <= FILE_MAX_SIZE && len < 0x1_0000_0000
    requires pos + Signed(len) < 0x8000_0000
    ensures var end := pos + Signed(len);
      ToRead(fsize, pos, Signed(len)) ==
        if end >= FS_NPAGES then FS_NPAGES - pos
        else if 0 <= end < fsize then Signed(len)
        else 0x1_0000_0000 + fsize - pos
  {
    UnsignedNegative(fsize - pos);
    if 0 <= pos + Signed(len) {
      UnsignedSmall(pos + Signed(len));
    } else {
      UnsignedNegative(pos + Signed(len));
    }
  }

  lemma UnsignedSmall(n: int)
    requires 0 <= n < 0x1_0000_0000
    ensures Unsigned(n) == n
  {
  }

  lemma UnsignedNegative(n: int)
    requires -0x8000_0000 <= n < 0
    ensures Unsigned(n) == n + 0x1_0000_0000
  {
  }

  /** For a read from the beginning, as all reads of read_file are; and what the others give. */
  lemma FirstReadIsExact(fsize: nat, len: nat)
    requires fsize <= FILE_MAX_SIZE && len < 0x1_0000_0000
    ensures ToRead(fsize, 0, Signed(len)) == Min(len, fsize) <==>
      len < FS_NPAGES || len >= 0x8000_0000 || fsize == FS_NPAGES || (len == FS_NPAGES && fsize >= FS_NPAGES)
    ensures ToRead(fsize, 0, Signed(len)) ==
      if FS_NPAGES <= len < 0x8000_0000 then FS_NPAGES else Min(len, fsize)
  {
    ReadIsExact(fsize, 0, len);
  }

  /** A read that asks for something of a file that has something reports at least one byte, so
      a position that moved with every read, as vfs.md describes it, would not stay at 0. */
  lemma ReadsGiveBytes(fsize: nat, len: nat)
    requires 0 < fsize <= FILE_MAX_SIZE && 0 < len < 0x1_0000_0000
    ensures ToRead(fsize, 0, Signed(len)) > 0
  {
    UnsignedSmall(fsize);
  }

  /** A short file read with a large buffer: 128 bytes are said to be read, of 10. */
  lemma ReadsTooMuch()
    ensures ToRead(10, 0, 200) == 128 && Min(200, 10) == 10
  {
  }

  /** A long file read with a large buffer: 128 bytes only. */
  lemma ReadsTooLittle()
    ensures ToRead(1000, 0, 500) == 128 && Min(500, 1000) == 500
  {
  }

  // ----- The buffer of a read

  /** Read from the beginning, the words copied are within the block. */
  lemma WordsFit(fsize: nat, len: nat)
    requires 0 < fsize <= FILE_MAX_SIZE && 0 < len < 0x1_0000_0000
    ensures 0 < ToRead(fsize, 0, Signed(len)) && InWords(ToRead(fsize, 0, Signed(len))) <= FILE_MAX_SIZE
  {
    ReadsGiveBytes(fsize, len);
    UnsignedSmall(fsize);
    var n := ToRead(fsize, 0, Signed(len));
    assert InWords(n) % 8 == 0 && FILE_MAX_SIZE % 8 == 0;
  }

  /** vfs.h promises that a read of len stores at most len + 1 characters. It does iff the length is
      at least 128, or a multiple of 8 or one less, or the file in whole words is not longer. */
  lemma BufferSuffices(fsize: nat, len: nat)
    requires 0 < fsize <= FILE_MAX_SIZE && 0 < len < 0x1_0000_0000
    ensures InWords(ToRead(fsize, 0, Signed(len))) <= len + 1 <==>
      len >= FS_NPAGES || len % 8 == 0 || len % 8 == 7 || InWords(fsize) <= len
  {
    WordsFit(fsize, len);
    if len < FS_NPAGES {
      UnsignedSmall(fsize);
      UnsignedSmall(len);
      assert ToRead(fsize, 0, Signed(len)) == Min(len, fsize);
      WordsOfMin(fsize, len);
    } else if len < 0x8000_0000 {
      assert ToRead(fsize, 0, Signed(len)) == 128;
      assert InWords(128) == 128 by { hide Unsigned; }
    }
  }

  lemma WordsOfMin(fsize: nat, len: nat)
    requires fsize > 0 && len > 0
    ensures InWords(Min(len, fsize)) <= len + 1 <==> len % 8 == 0 || len % 8 == 7 || InWords(fsize) <= len
  {
    RoundedUp(fsize, len, InWords(fsize) / 8, InWords(len) / 8);
  }

  /** The smaller of two numbers, rounded up to a multiple of 8, against the second. */
  lemma RoundedUp(m: nat, n: nat, a: nat, b: nat)
    requires m <= 8 * a < m + 8 && n <= 8 * b < n + 8
    ensures (if n <= m then 8 * b else 8 * a) <= n + 1 <==> n % 8 == 0 || n % 8 == 7 || 8 * a <= n
  {
    assert n == 8 * (n / 8) + n % 8;
  }

  /** The failing case: a read of 5 characters of a file of 8 stores 8. */
  lemma BufferOverrun()
    ensures InWords(ToRead(8, 0, 5)) == 8 && 8 > 5 + 1
  {
  }
}
