/** The data blocks of files: writing, appending and reading, byte by byte and word by word. */
module FileData {
  import opened Inodes
  import opened FileContents
  import opened VfsOperations
  import opened VfsRuns
  import opened Vfs

  class FileStore {
    const vfs: Vfs
    const blocks: array2<Byte> // row i is the data block of inode i

    ghost predicate Valid()
      reads this, vfs, vfs.fs, vfs.fs.table, vfs.open
    {
      && vfs.Valid() && SizesOk(vfs.fs.table[..]) && ReadsAtZero(vfs.Sys())
      && vfs.fs.table.Length == FS_NPAGES && vfs.open.Length == MAX_OPEN_FILES
      && blocks.Length0 == FS_NPAGES && blocks.Length1 == FILE_MAX_SIZE
    }

    ghost function Block(i: nat): (s: seq<Byte>)
      requires i < blocks.Length0 && blocks.Length1 == FILE_MAX_SIZE
      reads this, blocks
      ensures |s| == FILE_MAX_SIZE && forall k :: 0 <= k < FILE_MAX_SIZE ==> s[k] == blocks[i, k]
    {
      seq(FILE_MAX_SIZE, k requires 0 <= k < FILE_MAX_SIZE reads blocks => blocks[i, k])
    }

    /** The first `size` bytes of the block. */
    ghost function Contents(i: nat): (s: seq<Byte>)
      requires Valid() && i < FS_NPAGES
      reads this, vfs, vfs.fs, vfs.fs.table, vfs.open, blocks
      ensures |s| == vfs.fs.table[i].size <= FILE_MAX_SIZE
    {
      assert vfs.fs.table[..][i].size <= FILE_MAX_SIZE;
      Block(i)[..vfs.fs.table[i].size]
    }

    ghost function Files(): (files: Files)
      requires Valid()
      reads this, vfs, vfs.fs, vfs.fs.table, vfs.open, blocks
      ensures |files| == FS_NPAGES && Bounded(files) && forall i :: 0 <= i < FS_NPAGES ==> files[i] == Contents(i)
    {
      seq(FS_NPAGES, i requires 0 <= i < FS_NPAGES && Valid()
                       reads this, vfs, vfs.fs, vfs.fs.table, vfs.open, blocks => Contents(i))
    }

    /** After init_fs: every file is empty, and the blocks are zeroed pages. */
    constructor ()
      ensures Valid() && fresh(vfs) && fresh(vfs.fs) && fresh(vfs.fs.table) && fresh(vfs.open) && fresh(blocks)
      ensures forall i :: 0 <= i < FS_NPAGES ==> Contents(i) == []
    {
      vfs := new Vfs();
      blocks := new Byte[FS_NPAGES, FILE_MAX_SIZE]((_, _) => 0);
      new;
      hide Forest;
      GoodSizes(vfs.Sys());
    }

    /** memwrite: n bytes, at least one, to position `at` of a block. */
    method MemWrite(data: seq<Byte>, inode: nat, at: nat, n: nat) returns (written: nat)
      requires 1 <= n <= |data| && inode < blocks.Length0 && at + n <= blocks.Length1
      modifies blocks
      ensures written == n
      ensures forall i, k :: 0 <= i < blocks.Length0 && 0 <= k < blocks.Length1 ==>
        blocks[i, k] == if i == inode && at <= k < at + n then data[k - at] else old(blocks[i, k])
    {
      var left := n;
      while true
        invariant 1 <= left <= n
        invariant forall i, k :: 0 <= i < blocks.Length0 && 0 <= k < blocks.Length1 ==>
          blocks[i, k] == if i == inode && at <= k < at + n - left then data[k - at] else old(blocks[i, k])
        decreases left
      {
        blocks[inode, at + n - left] := data[n - left];
        left := left - 1;
        if !(left > 0) {
          break;
        }
      }
      return n - left;
    }

    /** reset_inode: the file becomes empty; its block keeps its bytes. */
    method ResetInode(inode: nat) returns (code: int)
      requires Valid() && inode < FS_NPAGES
      modifies vfs.fs.table
      ensures Valid()
      ensures old(vfs.fs.table[inode].kind) != FILE ==> code == -1 && vfs.fs.table[..] == old(vfs.fs.table[..])
      ensures old(vfs.fs.table[inode].kind) == FILE ==>
        && code == 0
        && vfs.fs.table[..] == old(vfs.fs.table[..])[inode := old(vfs.fs.table[inode]).(size := 0)]
        && Files() == old(Files())[inode := []]
    {
      hide Good;
      ghost var s := vfs.Sys();
      if vfs.fs.table[inode].kind != FILE {
        return -1;
      }
      StepGood(s, Resize(inode, 0));
      vfs.fs.table[inode] := vfs.fs.table[inode].(size := 0);
      assert vfs.Sys() == Step(s, Resize(inode, 0));
      return 0;
    }

    /** write_inode: appends as many bytes as are asked for and fit. */
    method WriteInode(inode: nat, data: seq<Byte>, size: int) returns (written: int)
      requires Valid() && inode < FS_NPAGES && size <= |data|
      modifies vfs.fs.table, blocks
      ensures Valid()
      ensures old(vfs.fs.table[inode].kind) != FILE ==>
        written == -1 && vfs.fs.table[..] == old(vfs.fs.table[..]) && Files() == old(Files())
      ensures old(vfs.fs.table[inode].kind) == FILE ==>
        && written == Fitting(old(vfs.fs.table[inode].size), size)
        && vfs.fs.table[..]
           == old(vfs.fs.table[..])[inode := old(vfs.fs.table[inode]).(size := old(vfs.fs.table[inode].size) + written)]
        && Files() == old(Files())[inode := old(Contents(inode)) + data[..written]]
    {
      hide Good;
      ghost var s, before, files := vfs.Sys(), Contents(inode), Files();
      if vfs.fs.table[inode].kind != FILE {
        return -1;
      }
      var used := vfs.fs.table[inode].size;
      assert s.t[inode].size <= FILE_MAX_SIZE;
      var maxSize := FILE_MAX_SIZE - used;
      var count := size;
      if count > maxSize {
        count := maxSize;
      }
      if count <= 0 {
        assert before + data[..0] == before && files[inode := before] == files;
        return 0;
      }
      written := MemWrite(data, inode, used, count);
      StepGood(s, Resize(inode, used + written));
      vfs.fs.table[inode] := vfs.fs.table[inode].(size := used + written);
      assert vfs.Sys() == Step(s, Resize(inode, used + written));
      assert Contents(inode) == before + data[..written];
      forall i | 0 <= i < FS_NPAGES && i != inode ensures Contents(i) == old(Contents(i)) {
        assert Block(i) == old(Block(i));
      }
      assert Files() == files[inode := before + data[..written]];
    }

    // ----- Files by descriptor

    /** The descriptor is one of an open file. */
    ghost predicate IsOpenFile(fd: int)
      requires Valid() && fd < MAX_OPEN_FILES
      reads this, vfs, vfs.fs, vfs.fs.table, vfs.open
    {
      fd >= 0 && InTable(vfs.open[fd].inode) && vfs.fs.table[vfs.open[fd].inode].kind == FILE
    }

    /** write_file. */
    method WriteFile(fd: int, data: seq<Byte>, len: nat) returns (written: int)
      requires Valid() && fd < MAX_OPEN_FILES && len < 0x1_0000_0000 && Signed(len) <= |data|
      modifies vfs.fs.table, blocks
      ensures Valid() && vfs.open[..] == old(vfs.open[..])
      ensures !old(IsOpenFile(fd)) ==> written == -1 && vfs.Sys() == old(vfs.Sys()) && Files() == old(Files())
      ensures old(IsOpenFile(fd)) ==>
        && written == Returned(old(Files()), Write(vfs.open[fd].inode, data, len))
        && Files() == AfterOp(old(Files()), Write(vfs.open[fd].inode, data, len))
    {
      hide Good;
      DescriptorsPoint(vfs.Sys());
      if 0 > fd {
        return -1;
      }
      if vfs.open[fd].inode == NIL {
        return -1;
      }
      if vfs.fs.table[vfs.open[fd].inode].kind != FILE {
        return -1;
      }
      var code := ResetInode(vfs.open[fd].inode);
      if code != 0 {
        return -1;
      }
      written := WriteInode(vfs.open[fd].inode, data, Signed(len));
    }

    /** append_file. */
    method AppendFile(fd: int, data: seq<Byte>, len: nat) returns (written: int)
      requires Valid() && fd < MAX_OPEN_FILES && len < 0x1_0000_0000 && Signed(len) <= |data|
      modifies vfs.fs.table, blocks
      ensures Valid() && vfs.open[..] == old(vfs.open[..])
      ensures !old(IsOpenFile(fd)) ==> written == -1 && vfs.Sys() == old(vfs.Sys()) && Files() == old(Files())
      ensures old(IsOpenFile(fd)) ==>
        && written == Returned(old(Files()), Append(vfs.open[fd].inode, data, len))
        && Files() == AfterOp(old(Files()), Append(vfs.open[fd].inode, data, len))
    {
      hide Good;
      DescriptorsPoint(vfs.Sys());
      if 0 > fd {
        return -1;
      }
      if vfs.open[fd].inode == NIL {
        return -1;
      }
      if vfs.fs.table[vfs.open[fd].inode].kind != FILE {
        return -1;
      }
      written := WriteInode(vfs.open[fd].inode, data, Signed(len));
    }

    /** memcpy from a block: eight bytes at a time, at least once. */
    method MemCopy(inode: nat, pos: nat, buffer: array<Byte>, n: int)
      requires inode < blocks.Length0 && pos + InWords(n) <= blocks.Length1 == FILE_MAX_SIZE
      requires InWords(n) <= buffer.Length
      modifies buffer
      ensures buffer[..InWords(n)] == Block(inode)[pos..pos + InWords(n)]
      ensures buffer[InWords(n)..] == old(buffer[InWords(n)..])
    {
      var at, left := 0, n;
      while true
        invariant at + InWords(left) == InWords(n)
        invariant forall k :: 0 <= k < at ==> buffer[k] == blocks[inode, pos + k]
        invariant forall k :: at <= k < buffer.Length ==> buffer[k] == old(buffer[k])
        decreases left
      {
        forall j | 0 <= j < 8 {
          buffer[at + j] := blocks[inode, pos + at + j];
        }
        at, left := at + 8, left - 8;
        if !(left > 0) {
          break;
        }
      }
    }

    /** read_inode, wherever the words it copies are within the block and the buffer; the position
        may be past the end of the file. */
    method ReadInode(inode: int, pos: nat, size: int, buffer: array<Byte>) returns (r: int)
      requires Valid() && pos < 0x8000_0000 && -0x8000_0000 <= size < 0x8000_0000
      requires InTable(inode) && vfs.fs.table[inode].kind == FILE ==>
        var words := InWords(ToRead(|Contents(inode)|, pos, size));
        pos + words <= FILE_MAX_SIZE && words <= buffer.Length
      modifies buffer
      ensures !InTable(inode) ==> r == -1 && buffer[..] == old(buffer[..])
      ensures InTable(inode) && old(vfs.fs.table[inode].kind) != FILE ==> r == -2 && buffer[..] == old(buffer[..])
      ensures InTable(inode) && old(vfs.fs.table[inode].kind) == FILE ==>
        && r == ToRead(|old(Contents(inode))|, pos, size)
        && buffer[..InWords(r)] == old(Block(inode))[pos..pos + InWords(r)]
        && buffer[InWords(r)..] == old(buffer[InWords(r)..])
    {
      hide Good;
      var sizeToRead := size;
      if inode < 0 || inode >= FS_NPAGES {
        return -1;
      }
      if vfs.fs.table[inode].kind != FILE {
        return -2;
      }
      ghost var c := Contents(inode);
      if Unsigned(pos + size) >= vfs.fs.table[inode].size {
        sizeToRead := Unsigned(vfs.fs.table[inode].size - pos);
      }
      if pos + size >= FS_NPAGES {
        sizeToRead := FS_NPAGES - pos;
      }
      MemCopy(inode, pos, buffer, sizeToRead);
      return sizeToRead;
    }

    /** read_file. Every read starts at byte 0, since nothing moves the position; the buffer gets
        the words at the beginning of the block, and nothing beyond them changes. */
    method ReadFile(fd: int, buffer: array<Byte>, len: nat) returns (r: int)
      requires Valid() && fd < MAX_OPEN_FILES && len < 0x1_0000_0000 && buffer.Length >= 1
      requires IsOpenFile(fd) && len > 0 && vfs.fs.table[vfs.open[fd].inode].size > 0 ==>
        InWords(ToRead(|Contents(vfs.open[fd].inode)|, 0, Signed(len))) <= buffer.Length
      modifies buffer
      ensures !old(IsOpenFile(fd)) ==> r == -1 && buffer[..] == old(buffer[..])
      ensures old(IsOpenFile(fd)) && (len == 0 || old(Contents(vfs.open[fd].inode)) == []) ==>
        r == 0 && buffer[..] == old(buffer[..])[0 := 0]
      ensures old(IsOpenFile(fd)) && len > 0 && old(Contents(vfs.open[fd].inode)) != [] ==>
        var contents := old(Contents(vfs.open[fd].inode));
        && r == ToRead(|contents|, 0, Signed(len)) > 0 && InWords(r) <= buffer.Length && InWords(r) <= FILE_MAX_SIZE
        && buffer[..InWords(r)] == old(Block(vfs.open[fd].inode))[..InWords(r)]
        && buffer[InWords(r)..] == old(buffer[InWords(r)..])
        && (r <= |contents| ==> buffer[..r] == contents[..r])
        && (len < FS_NPAGES || len >= 0x8000_0000 ==> r == Min(len, |contents|))
    {
      hide Good;
      DescriptorsPoint(vfs.Sys());
      if 0 > fd {
        return -1;
      }
      if vfs.open[fd].inode == NIL {
        return -1;
      }
      if vfs.fs.table[vfs.open[fd].inode].kind != FILE {
        return -1;
      }
      ghost var c := Contents(vfs.open[fd].inode);
      assert vfs.Sys().open[fd].next == 0;
      if vfs.open[fd].next >= vfs.fs.table[vfs.open[fd].inode].size || len == 0 {
        buffer[0] := 0;
        return 0;
      }
      ghost var b := Block(vfs.open[fd].inode);
      WordsFit(|c|, len);
      FirstReadIsExact(|c|, len);
      r := ReadInode(vfs.open[fd].inode, vfs.open[fd].next, Signed(len), buffer);
      if r <= |c| {
        assert buffer[..r] == buffer[..InWords(r)][..r] == b[..r] == c[..r];
      }
    }
  }

  lemma DescriptorsPoint(s: System)
    requires Good(s)
    ensures |s.open| == MAX_OPEN_FILES && forall k :: 0 <= k < |s.open| ==> Pointer(s.open[k].inode)
  {
  }
}
