/** The code of guest/xv6/kernel/fs.c that changes blocks and inodes: balloc, bfree, bmap,
    itrunc, readi and writei, and the chunk loop of filewrite in guest/xv6/kernel/file.c. */
module FsCode {
  import opened FsBlocks
  import Pigeonhole

  const BPB: nat := 8192                     // bits in a block of the free map
  const IPB: nat := 16                       // inodes in a block
  const MAXOPBLOCKS: nat := 10

  function Min(a: nat, b: nat): nat { if a < b then a else b }
  function Max(a: nat, b: nat): nat { if a < b then b else a }

  lemma TrimSound(f: Fs, i: nat, n: nat)
    requires Sound(f) && i < |f.names| && n <= |f.contents[i]|
    ensures Sound(f.(contents := f.contents[i := f.contents[i][..n]]))
  {
    var c := f.contents[i];
    assert Holds(f.disk, f.names[i], c);
    forall off | 0 <= off < n ensures Reads(f.disk, f.names[i], off, c[..n][off]) {
      assert c[..n][off] == c[off];
    }
    forall x | 0 <= x < |f.names| && x != i ensures Holds(f.disk, f.names[x], f.contents[i := c[..n]][x]) {
      assert Holds(f.disk, f.names[x], f.contents[x]);
    }
  }

  class FileSystem {
    const start: nat                         // first data block
    const inodestart: nat
    const bmapstart: nat
    var addrs: seq<seq<nat>>                 // of the inodes in memory
    var sizes: seq<nat>
    var disk: seq<Block>
    var used: seq<bool>                      // the free map
    ghost var fs: Fs                         // what they mean
    var daddrs: seq<seq<nat>>                // of the inodes on disk
    var dsizes: seq<nat>
    ghost var logged: set<nat>               // blocks given to log_write in this operation
    ghost var worst: nat                     // the most that any finished operation logged

    ghost predicate Agrees()
      reads this
    {
      && Sound(fs) && fs.disk == disk && fs.used == used && fs.start == start
      && |addrs| == |sizes| == |fs.names|
      && forall i {:trigger addrs[i]} | 0 <= i < |addrs| :: addrs[i] == fs.names[i][..NDIRECT + 1]
    }

    ghost predicate Valid()
      reads this
    {
      Agrees() && forall i | 0 <= i < |sizes| :: sizes[i] == |fs.contents[i]|
    }

    /** Allocate a zeroed block; not ok is the panic "out of blocks". */
    method Balloc() returns (r: nat, ok: bool)
      requires |disk| == |used|
      modifies this`disk, this`used, this`logged
      ensures ok <==> exists b :: 0 <= b < |old(used)| && !old(used)[b]
      ensures ok ==> r < |old(used)| && !old(used)[r] && forall b | 0 <= b < r :: old(used)[b]
      ensures ok ==> used == old(used)[r := true] && disk == old(disk)[r := Zeros()]
      ensures ok ==> logged == old(logged) + {bmapstart + r / BPB, r}
      ensures !ok ==> used == old(used) && disk == old(disk) && logged == old(logged)
    {
      var b := 0;
      while b < |used|
        invariant used == old(used) && disk == old(disk) && logged == old(logged)
        invariant b % BPB == 0
        invariant forall x | 0 <= x < b && x < |used| :: used[x]
      {
        var bi := 0;
        while bi < BPB && b + bi < |used|
          invariant used == old(used) && disk == old(disk) && logged == old(logged)
          invariant bi <= BPB
          invariant forall x | 0 <= x < b + bi && x < |used| :: used[x]
        {
          if !used[b + bi] {
            used := used[b + bi := true];
            logged := logged + {bmapstart + b / BPB};
            disk := disk[b + bi := Zeros()];
            logged := logged + {b + bi};
            SameMapBlock(b, bi);
            return b + bi, true;
          }
          bi := bi + 1;
        }
        b := b + BPB;
      }
      return 0, false;
    }

    /** Free a block; not ok is the panic "freeing free block". */
    method Bfree(b: nat) returns (ok: bool)
      requires b < |used|
      modifies this`used, this`logged
      ensures ok == old(used[b])
      ensures used == old(used)[b := false] && logged == if ok then old(logged) + {bmapstart + b / BPB} else old(logged)
    {
      if !used[b] { return false; }
      used := used[b := false];
      logged := logged + {bmapstart + b / BPB};
      return true;
    }

    /** The block of a slot kept in the inode itself, allocated if there is none. */
    method GetSlot(i: nat, k: nat) returns (addr: nat, ok: bool, ghost marks: set<nat>)
      requires Agrees() && i < |addrs| && k <= NDIRECT
      modifies this`addrs, this`disk, this`used, this`fs, this`logged
      ensures Agrees() && fs.contents == old(fs.contents) && Grew(old(fs.names), fs.names, i, {k})
      ensures ok ==> addr == fs.names[i][k] != 0 && logged <= old(logged) + {addr} + marks
      ensures old(fs.names)[i][k] != 0 ==> ok && marks == {} && fs == old(fs) && logged == old(logged)
      ensures !ok ==> (forall b | 0 <= b < |old(used)| :: old(used)[b]) && fs == old(fs) && logged == old(logged)
      ensures |marks| <= 1
    {
      marks := {};
      ok := true;
      addr := addrs[i][k];
      if addr == 0 {
        addr, ok := Balloc();
        if !ok { return; }
        marks := {bmapstart + addr / BPB};
        NamedSound(fs, i, k, addr);
        fs := Named(fs, i, k, addr);
        addrs := addrs[i := With(addrs[i], k, addr)];
      }
    }

    /** The block that word k of an inode's indirect block names, allocated if there is none. */
    method GetWord(i: nat, k: nat) returns (addr: nat, ok: bool, ghost marks: set<nat>)
      requires Agrees() && i < |addrs| && k < NINDIRECT && fs.names[i][NDIRECT] != 0
      modifies this`disk, this`used, this`fs, this`logged
      ensures Agrees() && fs.contents == old(fs.contents) && Grew(old(fs.names), fs.names, i, {NDIRECT + 1 + k})
      ensures ok ==>
        addr == fs.names[i][NDIRECT + 1 + k] != 0 && logged <= old(logged) + {addr} + IndirectOf(fs.names[i]) + marks
      ensures old(fs.names)[i][NDIRECT + 1 + k] != 0 ==> ok && marks == {} && fs == old(fs) && logged == old(logged)
      ensures !ok ==> (forall b | 0 <= b < |old(used)| :: old(used)[b]) && fs == old(fs) && logged == old(logged)
      ensures |marks| <= 1
    {
      marks := {};
      ok := true;
      var ind := addrs[i][NDIRECT];
      assert Indirect(disk, fs.names[i], 0);
      addr := Word(disk[ind], k);
      if addr == 0 {
        addr, ok, marks := NameWord(i, k, ind);
      }
    }

    method NameWord(i: nat, k: nat, ind: nat) returns (addr: nat, ok: bool, ghost marks: set<nat>)
      requires Agrees() && i < |addrs| && k < NINDIRECT && fs.names[i][NDIRECT] == ind != 0
        && fs.names[i][NDIRECT + 1 + k] == 0
      modifies this`disk, this`used, this`fs, this`logged
      ensures Agrees() && fs.contents == old(fs.contents) && Grew(old(fs.names), fs.names, i, {NDIRECT + 1 + k})
      ensures ok ==> addr == fs.names[i][NDIRECT + 1 + k] != 0 && logged <= old(logged) + {addr, ind} + marks
      ensures !ok ==> (forall b | 0 <= b < |old(used)| :: old(used)[b]) && fs == old(fs) && logged == old(logged)
      ensures |marks| <= 1
    {
      addr, ok := Balloc();
      if !ok { return addr, ok, {}; }
      marks := {bmapstart + addr / BPB};
      NamedViaAll(fs, i, NDIRECT + 1 + k, addr);
      fs := NamedVia(fs, i, NDIRECT + 1 + k, addr);
      disk := disk[ind := PutWord(disk[ind], k, addr)];
      logged := logged + {ind};
    }

    /** The block holding block bn of inode i, allocated if there is none. Not ok is a panic. */
    method Bmap(i: nat, bn: nat) returns (addr: nat, ok: bool, ghost marks: set<nat>)
      requires Agrees() && i < |addrs|
      modifies this`addrs, this`disk, this`used, this`fs, this`logged
      ensures Agrees() && fs.contents == old(fs.contents) && Grew(old(fs.names), fs.names, i, {SlotOf(bn), NDIRECT})
      ensures ok ==> bn < MAXFILE && addr == fs.names[i][SlotOf(bn)] != 0
      ensures ok ==> logged <= old(logged) + {addr} + IndirectOf(fs.names[i]) + marks
      ensures bn < MAXFILE && old(fs.names)[i][SlotOf(bn)] != 0 ==>
        ok && marks == {} && fs == old(fs) && logged == old(logged)
      ensures !ok ==> bn >= MAXFILE || forall b | 0 <= b < |used| :: used[b]
      ensures ok ==> |marks| <= 1 + Fresh(old(fs.names), fs.names, i)
    {
      if bn < NDIRECT {
        addr, ok, marks := GetSlot(i, bn);
        return;
      }
      if bn - NDIRECT < NINDIRECT {
        addr, ok, marks := BmapIndirect(i, bn - NDIRECT);
        return;
      }
      return 0, false, {};
    }

    method BmapIndirect(i: nat, k: nat) returns (addr: nat, ok: bool, ghost marks: set<nat>)
      requires Agrees() && i < |addrs| && k < NINDIRECT
      modifies this`addrs, this`disk, this`used, this`fs, this`logged
      ensures Agrees() && fs.contents == old(fs.contents)
        && Grew(old(fs.names), fs.names, i, {NDIRECT + 1 + k, NDIRECT})
      ensures ok ==>
        addr == fs.names[i][NDIRECT + 1 + k] != 0 && logged <= old(logged) + {addr} + IndirectOf(fs.names[i]) + marks
      ensures old(fs.names)[i][NDIRECT + 1 + k] != 0 ==> ok && marks == {} && fs == old(fs) && logged == old(logged)
      ensures !ok ==> forall b | 0 <= b < |used| :: used[b]
      ensures ok ==> |marks| <= 1 + Fresh(old(fs.names), fs.names, i)
    {
      ghost var names0, logged0 := fs.names, logged;
      assert Indirect(disk, names0[i], 0);
      ghost var marks0;
      addr, ok, marks0 := GetSlot(i, NDIRECT);
      if !ok { return addr, ok, marks0; }
      ghost var names1 := fs.names;
      addr, ok, marks := GetWord(i, k);
      GrewTwice(names0, names1, fs.names, i, NDIRECT, NDIRECT + 1 + k);
      UnionSize(marks0, marks);
      marks := marks0 + marks;
    }

    /** One turn of the loop of writei: bytes d go to offset off of inode i, within one block.
        Only the first `avail` of them can be read from the caller. */
    method WriteBlock(i: nat, off: nat, d: seq<Byte>, avail: nat)
        returns (copied: bool, ok: bool, ghost marks: set<nat>)
      requires Agrees() && i < |addrs| && off <= |fs.contents[i]|
      requires 0 < |d| && off % BSIZE + |d| <= BSIZE && off + |d| <= MAXFILE * BSIZE
      modifies this`addrs, this`disk, this`used, this`fs, this`logged
      ensures Agrees() && |fs.names| == old(|fs.names|) && fs.names == old(fs.names)[i := fs.names[i]]
      ensures !ok ==> fs.contents == old(fs.contents) && forall b | 0 <= b < |used| :: used[b]
      ensures ok ==> copied == (|d| <= avail)
      ensures ok ==> fs.contents == old(fs.contents)[i := Chunk(old(fs.contents)[i], off, d, avail)]
      ensures ok ==> LogsOne(old(fs.names), fs.names, i, off, old(logged), logged, marks)
    {
      copied := false;
      ghost var c := fs.contents[i];
      if off % BSIZE != 0 { MappedBefore(fs, i, off); }
      var addr;
      addr, ok, marks := Bmap(i, off / BSIZE);
      if !ok { return; }
      copied := CopyIn(i, addr, off, d, avail);
      if copied { logged := logged + {addr}; }
    }

    /** either_copyin into the block at off, which copies what it can before it fails. */
    method CopyIn(i: nat, addr: nat, off: nat, d: seq<Byte>, avail: nat) returns (copied: bool)
      requires Agrees() && i < |addrs| && off <= |fs.contents[i]| && off < MAXFILE * BSIZE
        && addr == fs.names[i][SlotAt(off)] != 0
      requires off % BSIZE + |d| <= BSIZE && off + |d| <= MAXFILE * BSIZE
      modifies this`disk, this`fs
      ensures Agrees() && copied == (|d| <= avail) && fs.names == old(fs.names)
      ensures fs.contents == old(fs.contents)[i := Chunk(old(fs.contents)[i], off, d, avail)]
    {
      copied := |d| <= avail;
      var e := if copied then d else d[..avail];
      ChunkSound(fs, i, off, d, avail);
      disk := disk[addr := Overwrite(disk[addr], off % BSIZE, e)];
      fs := Chunked(fs, i, off, d, avail);
    }

    /** One turn of the loop of writei, after tot bytes. */
    method WriteTurn(i: nat, off0: nat, src: seq<Byte>, readable: nat, tot: nat, ghost was: Fs)
      returns (next: nat, copied: bool, ok: bool, ghost more: set<nat>)
      requires Agrees() && i < |addrs| && tot < |src| && Writable(was, i, off0, src) && tot <= readable
        && Boundary(off0, |src|, tot)
      requires fs.names == was.names[i := fs.names[i]] && fs.contents == Target(was.contents, i, off0, src, tot)
      modifies this`addrs, this`disk, this`used, this`fs, this`logged
      ensures Agrees() && |fs.names| == |was.names| && fs.names == was.names[i := fs.names[i]]
      ensures i < |fs.contents| && fs.contents == was.contents[i := fs.contents[i]]
      ensures !ok ==> forall b | 0 <= b < |used| :: used[b]
      ensures next == tot + Min(|src| - tot, BSIZE - (off0 + tot) % BSIZE)
      ensures ok ==> LogsOne(old(fs.names), fs.names, i, off0 + tot, old(logged), logged, more)
      ensures ok && copied ==> next <= |src| && next <= readable && Boundary(off0, |src|, next)
      ensures ok && copied ==> fs.contents == Target(was.contents, i, off0, src, next)
      ensures ok && !copied ==> tot == Reported(off0, |src|, readable)
      ensures ok && !copied ==> fs.contents == was.contents[i := Landed(was.contents[i], off0, src, readable)]
    {
      var m := Min(|src| - tot, BSIZE - (off0 + tot) % BSIZE);
      next := tot + m;
      ChunkStep(was.contents, fs.contents, i, off0, src, readable, tot, m);
      copied, ok, more := WriteBlock(i, off0 + tot, src[tot..tot + m], readable - tot);
    }

    /** The loop of writei. `readable` is how many bytes can be read at the source address. */
    method WriteLoop(i: nat, off0: nat, src: seq<Byte>, readable: nat)
        returns (tot: nat, ok: bool, ghost marks: set<nat>)
      requires Agrees() && i < |addrs| && off0 <= |fs.contents[i]| && off0 + |src| <= MAXFILE * BSIZE
      modifies this`addrs, this`disk, this`used, this`fs, this`logged
      ensures Agrees() && |fs.names| == old(|fs.names|) && fs.names == old(fs.names)[i := fs.names[i]]
      ensures !ok ==> forall b | 0 <= b < |used| :: used[b]
      ensures i < |fs.contents| && fs.contents == old(fs.contents)[i := fs.contents[i]]
      ensures ok ==> tot == Reported(off0, |src|, readable)
      ensures ok ==> fs.contents == old(fs.contents)[i := Landed(old(fs.contents)[i], off0, src, readable)]
      ensures ok ==> Logs(old(fs.names), fs.names, i, off0, |src|, |src|, old(logged), logged, marks)
    {
      tot, ok, marks := 0, true, {};
      ghost var was, logged0 := fs, logged;
      WriteStart(fs, i, off0, src, logged);
      while tot < |src|
        invariant ok && Agrees() && |addrs| == |was.names| && tot <= |src| && tot <= readable
        invariant fs.names == was.names[i := fs.names[i]]
        invariant Boundary(off0, |src|, tot) && fs.contents == Target(was.contents, i, off0, src, tot)
        invariant Logs(was.names, fs.names, i, off0, |src|, tot, logged0, logged, marks)
      {
        ghost var more, names, logged1 := {}, fs.names, logged;
        var next, copied;
        next, copied, ok, more := WriteTurn(i, off0, src, readable, tot, was);
        if !ok { return; }
        LogsMore(was.names, names, fs.names, i, off0, |src|, tot, next - tot, logged0, logged1, logged, marks, more);
        marks := marks + more;
        if !copied { return; }
        tot := next;
      }
      LandedAll(was.contents[i], off0, src, readable);
    }

    /** iupdate: copy the inode in memory to its block. */
    method Iupdate(i: nat)
      requires i < |addrs| == |sizes| == |daddrs| == |dsizes|
      modifies this`daddrs, this`dsizes, this`logged
      ensures daddrs == old(daddrs)[i := addrs[i]] && dsizes == old(dsizes)[i := sizes[i]]
      ensures logged == old(logged) + {inodestart + i / IPB}
    {
      daddrs, dsizes := daddrs[i := addrs[i]], dsizes[i := sizes[i]];
      logged := logged + {inodestart + i / IPB};
    }

    /** The inodes on disk are those in memory. */
    ghost predicate Flushed()
      reads this
    {
      daddrs == addrs && dsizes == sizes
    }

    /** writei(ip, 1, src, off, n) with n == |src|, of which `readable` bytes can be read. */
    method Writei(i: nat, off: nat, src: seq<Byte>, readable: nat) returns (r: Outcome, ghost touched: set<nat>)
      requires Valid() && i < |addrs| && |daddrs| == |dsizes| == |addrs| && off < U32 && |src| < U32
      modifies this`addrs, this`sizes, this`disk, this`used, this`daddrs, this`dsizes, this`fs, this`logged
      ensures |addrs| == old(|addrs|)
      ensures r.Panic? ==> forall b | 0 <= b < |used| :: used[b]
      ensures r.Done? ==> Valid() && |daddrs| == |dsizes| == |addrs|
      ensures r.Done? ==> (r.value == -1 <==> (off > |old(fs.contents)[i]| || off + |src| > MAXFILE * BSIZE))
      ensures r.Done? && r.value == -1 ==> fs == old(fs)
      ensures r.Done? && r.value != -1 ==> r.value == Reported(off, |src|, readable)
      ensures r.Done? && r.value != -1 ==>
        fs.contents == old(fs.contents)[i := Landed(old(fs.contents)[i], off, src, readable)]
      ensures r.Done? && r.value != -1 ==> fs.names == old(fs.names)[i := fs.names[i]]
      ensures r.Done? && old(Flushed()) ==> Flushed()
      ensures r.Done? ==> logged <= old(logged) + touched && |touched| <= Spanned(off, |src|) + Starts(off, |src|) + 3
    {
      touched := {};
      if off > sizes[i] || (off + |src|) % U32 < off { return Done(-1), touched; }
      if (off + |src|) % U32 > MAXFILE * BSIZE { return Done(-1), touched; }
      ghost var was := fs.contents;
      assert Holds(fs.disk, fs.names[i], fs.contents[i]);
      var tot, ok;
      ghost var marks;
      tot, ok, marks := WriteLoop(i, off, src, readable);
      if !ok { return Panic, touched; }
      touched := LogsEnd(old(fs.names), fs.names, i, off, |src|, old(logged), logged, marks);
      LandedSize(was[i], off, src, readable);
      assert addrs == old(addrs)[i := addrs[i]];
      if off + tot > sizes[i] { sizes := sizes[i := off + tot]; }
      Iupdate(i);
      touched := touched + {inodestart + i / IPB};
      return Done(tot), touched;
    }

    /** readi(ip, 1, dst, off, n). `room` is how many bytes can be written at the destination;
        `got` are the bytes put there. */
    method Readi(i: nat, off: nat, n: nat, room: nat) returns (r: int, got: seq<Byte>)
      requires Valid() && i < |addrs| && off < U32 && n < U32
      modifies this`addrs, this`disk, this`used, this`fs, this`logged
      ensures Valid() && fs == old(fs) && addrs == old(addrs) && logged == old(logged)
      ensures off > |fs.contents[i]| || off + n >= U32 ==> r == 0 && got == []
      ensures off <= |fs.contents[i]| && off + n < U32 ==>
        var k := Min(n, |fs.contents[i]| - off);
        got == fs.contents[i][off..off + Min(k, room)] && r == if k <= room then k else -1
    {
      if off > sizes[i] || (off + n) % U32 < off { return 0, []; }
      var k := if off + n > sizes[i] then sizes[i] - off else n;
      r, got := ReadLoop(i, off, k, room);
    }

    method ReadLoop(i: nat, off0: nat, n: nat, room: nat) returns (r: int, got: seq<Byte>)
      requires Agrees() && i < |addrs| && off0 + n <= |fs.contents[i]|
      modifies this`addrs, this`disk, this`used, this`fs, this`logged
      ensures Agrees() && fs == old(fs) && addrs == old(addrs) && logged == old(logged)
      ensures got == fs.contents[i][off0..off0 + Min(n, room)] && r == if n <= room then n else -1
    {
      var tot, off := 0, off0;
      got := [];
      ghost var c := fs.contents[i];
      while tot < n
        invariant Agrees() && fs == old(fs) && addrs == old(addrs) && logged == old(logged)
        invariant tot <= n && tot <= room && off == off0 + tot && got == c[off0..off]
      {
        var m := Min(n - tot, BSIZE - off % BSIZE);
        var k := Min(m, room - tot);
        ReadsChunk(fs, i, off, m, k);
        var addr, ok;
        ghost var marks;
        addr, ok, marks := Bmap(i, off / BSIZE);
        got := got + disk[addr][off % BSIZE..off % BSIZE + k];
        assert got == c[off0..off + k];
        if k < m { return -1, got; }
        tot, off := tot + m, off + m;
      }
      return tot, got;
    }

    /** itrunc: free every block of inode i. */
    method Itrunc(i: nat)
      requires Valid() && i < |addrs| && |daddrs| == |dsizes| == |addrs|
      modifies this
      ensures Valid() && |addrs| == old(|addrs|)
      ensures fs.contents == old(fs.contents)[i := []] && (forall k | 0 <= k < SLOTS :: fs.names[i][k] == 0)
      ensures fs.names == old(fs.names)[i := fs.names[i]] && disk == old(disk)
      ensures FreedOf(old(fs), fs, i)
      ensures old(Flushed()) ==> Flushed()
    {
      ghost var was := fs;
      TrimSound(fs, i, 0);
      fs := fs.(contents := fs.contents[i := fs.contents[i][..0]]);
      FreeDirect(i);
      FreeIndirect(i);
      FreedExactly(was, fs, i);
      sizes := sizes[i := 0];
      assert addrs == old(addrs)[i := addrs[i]];
      Iupdate(i);
    }

    method FreeDirect(i: nat)
      requires Agrees() && i < |addrs| && fs.contents[i] == []
      modifies this`addrs, this`used, this`fs, this`logged
      ensures Agrees() && |addrs| == old(|addrs|) && fs.contents == old(fs.contents)
      ensures fs.names == old(fs.names)[i := fs.names[i]] && (forall k | 0 <= k < NDIRECT :: fs.names[i][k] == 0)
    {
      var k := 0;
      while k < NDIRECT
        invariant k <= NDIRECT && Agrees() && |addrs| == old(|addrs|) && fs.contents == old(fs.contents)
        invariant fs.names == old(fs.names)[i := fs.names[i]]
        invariant forall x | 0 <= x < k :: fs.names[i][x] == 0
      {
        if addrs[i][k] != 0 {
          ReleasedSound(fs, i, k);
          var ok := Bfree(addrs[i][k]);
          assert ok;
          addrs := addrs[i := With(addrs[i], k, 0)];
          fs := Released(fs, i, k);
        }
        k := k + 1;
      }
    }

    method FreeIndirect(i: nat)
      requires Agrees() && i < |addrs| && fs.contents[i] == [] && (forall k | 0 <= k < NDIRECT :: fs.names[i][k] == 0)
      modifies this`addrs, this`used, this`fs, this`logged
      ensures Agrees() && |addrs| == old(|addrs|) && fs.contents == old(fs.contents)
      ensures fs.names == old(fs.names)[i := fs.names[i]] && (forall k | 0 <= k < SLOTS :: fs.names[i][k] == 0)
    {
      assert Indirect(fs.disk, fs.names[i], 0);
      if addrs[i][NDIRECT] != 0 {
        var a := disk[addrs[i][NDIRECT]];
        FreeWords(i, a);
        ReleasedLast(fs, i);
        var ok := Bfree(addrs[i][NDIRECT]);
        assert ok;
        addrs := addrs[i := With(addrs[i], NDIRECT, 0)];
        fs := Released(fs, i, NDIRECT);
      }
    }

    /** Free the blocks the words of an indirect block name. The words stay as they are. */
    method FreeWords(i: nat, a: Block)
      requires Agrees() && i < |addrs| && fs.contents[i] == [] && fs.names[i][NDIRECT] != 0
        && fs.names[i][NDIRECT] < |disk|
      requires a == disk[fs.names[i][NDIRECT]] && (forall k | 0 <= k < NDIRECT :: fs.names[i][k] == 0)
      modifies this`used, this`fs, this`logged
      ensures fs.disk == disk && fs.used == used && fs.start == start && Emptying(fs, i, NINDIRECT)
      ensures fs.contents == old(fs.contents) && |fs.names| == |addrs| && fs.names == old(fs.names)[i := fs.names[i]]
      ensures forall k | 0 <= k <= NDIRECT :: fs.names[i][k] == old(fs.names)[i][k]
    {
      var j := 0;
      while j < NINDIRECT
        invariant j <= NINDIRECT && fs.disk == disk && fs.used == used && fs.start == start && Emptying(fs, i, j)
        invariant fs.contents == old(fs.contents) && |fs.names| == |addrs|
          && fs.names == old(fs.names)[i := fs.names[i]]
        invariant forall k | 0 <= k <= NDIRECT :: fs.names[i][k] == old(fs.names)[i][k]
      {
        assert Word(a, j) == fs.names[i][NDIRECT + 1 + j];
        EmptyingMore(fs, i, j);
        if Word(a, j) != 0 {
          var ok := Bfree(Word(a, j));
          assert ok;
          fs := Released(fs, i, NDIRECT + 1 + j);
        }
        j := j + 1;
      }
    }

    /** begin_op and end_op, as far as they bound an operation. */
    method BeginOp()
      modifies this`logged
      ensures logged == {}
    {
      logged := {};
    }

    method EndOp()
      modifies this`worst
      ensures worst == Max(old(worst), |logged|)
    {
      worst := Max(worst, |logged|);
    }

    /** One chunk of filewrite, an operation of its own. */
    method FileChunk(i: nat, off: nat, src: seq<Byte>, readable: nat) returns (r: Outcome)
      requires Valid() && i < |addrs| && |daddrs| == |dsizes| == |addrs| && off < U32 && |src| <= MAXCHUNK
      modifies this
      ensures |addrs| == old(|addrs|)
      ensures r.Panic? ==> forall b | 0 <= b < |used| :: used[b]
      ensures r.Done? ==> Valid() && |daddrs| == |dsizes| == |addrs| && (old(Flushed()) ==> Flushed())
      ensures r.Done? ==> worst <= Max(old(worst), MAXOPBLOCKS)
      ensures r.Done? ==> (r.value == -1 <==> (off > |old(fs.contents)[i]| || off + |src| > MAXFILE * BSIZE))
      ensures r.Done? && r.value == -1 ==> fs.contents == old(fs.contents)
      ensures r.Done? && r.value != -1 ==> r.value == Reported(off, |src|, readable)
      ensures r.Done? && r.value != -1 ==>
        fs.contents == old(fs.contents)[i := Landed(old(fs.contents)[i], off, src, readable)]
    {
      BeginOp();
      ghost var touched;
      r, touched := Writei(i, off, src, readable);
      if r.Panic? { return; }
      ChunkBound(off, |src|);
      Pigeonhole.SubsetSize(logged, touched);
      EndOp();
    }

    /** One turn of the loop of filewrite, after k bytes. */
    method FileTurn(i: nat, off0: nat, src: seq<Byte>, readable: nat, k: nat, ghost was: seq<seq<Byte>>)
      returns (r: Outcome, n1: nat, off: nat, ghost stored: nat)
      requires Valid() && i < |addrs| == |was| && |daddrs| == |dsizes| == |addrs| && off0 + k < U32 && k < |src|
        && k <= readable
      requires fs.contents == Grown(was, i, off0, src, k, off0 + k)
      modifies this
      ensures |addrs| == |was| && 0 < n1 <= |src| - k
      ensures r.Panic? ==> forall b | 0 <= b < |used| :: used[b]
      ensures r.Done? ==> Valid() && |daddrs| == |dsizes| == |addrs| && (old(Flushed()) ==> Flushed())
      ensures r.Done? ==> worst <= Max(old(worst), MAXOPBLOCKS)
      ensures r.Done? ==> off0 + k <= off <= off0 + stored && stored <= |src| && stored <= readable
      ensures r.Done? ==> fs.contents == Grown(was, i, off0, src, stored, off)
      ensures r.Done? ==>
        (r.value == n1 <==> off0 <= |was[i]| && off0 + k + n1 <= MAXFILE * BSIZE && k + n1 <= readable)
      ensures r.Done? && r.value == n1 ==> off == off0 + k + n1 && stored == k + n1
    {
      n1 := |src| - k;
      if n1 > MAXCHUNK { n1 := MAXCHUNK; }
      var at, left := off0 + k, readable - k;
      off, stored := at, k;
      GrownSize(was, fs.contents, i, off0, src, k);
      ghost var after, end := k + Min(n1, left), at + Reported(at, n1, left);
      ChunkStored(was, fs.contents, i, off0, src, k, n1, left, at, after, end);
      ReportedAll(at, n1, left);
      r := FileChunk(i, at, src[k..k + n1], left);
      if r.Panic? { return; }
      if r.value > 0 { off := at + r.value; }
      if r.value != -1 {
        stored := after;
        assert off0 <= |was[i]| && off == end;
      }
    }

    /** filewrite on an inode, at file offset `off0` and with n == |src| unless n is negative.
        `stored` counts the bytes of src that reached the file's blocks. */
    method FileWrite(i: nat, off0: nat, src: seq<Byte>, n: int, readable: nat)
        returns (ret: Outcome, off: nat, ghost stored: nat)
      requires Valid() && i < |addrs| && |daddrs| == |dsizes| == |addrs| && off0 < U32 && n < INT_LIMIT
        && |src| == if n < 0 then 0 else n
      modifies this
      ensures ret.Panic? ==> forall b | 0 <= b < |used| :: used[b]
      ensures ret.Done? ==> Valid() && (old(Flushed()) ==> Flushed()) && worst <= Max(old(worst), MAXOPBLOCKS)
      ensures ret.Done? ==> ret.value == n || ret.value == -1
      ensures ret.Done? && n > 0 ==>
        (ret.value == n <==> off0 <= |old(fs.contents)[i]| && off0 + n <= MAXFILE * BSIZE && n <= readable)
      ensures ret.Done? ==> off0 <= off <= off0 + stored && stored <= |src| && stored <= readable
      ensures ret.Done? ==> fs.contents == Grown(old(fs.contents), i, off0, src, stored, off)
      ensures ret.Done? && n >= 0 && ret.value == n ==> off == off0 + n
    {
      var k := 0;
      off, stored := off0, 0;
      ghost var was := fs.contents;
      GrownNone(was, i, off0, src);
      while k < n
        invariant 0 <= k && (k == 0 || k <= n) && Valid() && |addrs| == |was| == |daddrs| == |dsizes|
          && (old(Flushed()) ==> Flushed())
        invariant worst <= Max(old(worst), MAXOPBLOCKS) && k <= readable && stored == k && off == off0 + k
        invariant k > 0 ==> off0 <= |was[i]| && off <= MAXFILE * BSIZE
        invariant fs.contents == Grown(was, i, off0, src, stored, off)
      {
        var r, n1;
        r, n1, off, stored := FileTurn(i, off0, src, readable, k, was);
        if r.Panic? { return Panic, off, stored; }
        if r.value != n1 { break; }
        k := k + n1;
      }
      ret := Done(if k == n then n else -1);
    }

    /** An image with `inodes` empty inodes and no data block in use. */
    constructor (inodes: nat, size: nat, start: nat, inodestart: nat, bmapstart: nat)
      requires 0 < start <= size < U32
      ensures Valid() && Flushed() && |addrs| == |daddrs| == |dsizes| == inodes && worst == 0
      ensures fs.contents == seq(inodes, _ => [])
    {
      this.start, this.inodestart, this.bmapstart := start, inodestart, bmapstart;
      var none: seq<nat> := seq(NDIRECT + 1, _ => 0);
      addrs, daddrs := seq(inodes, _ => none), seq(inodes, _ => none);
      sizes, dsizes := seq(inodes, _ => 0), seq(inodes, _ => 0);
      disk := seq(size, _ => Zeros());
      used := seq(size, b => b < start);
      logged, worst := {}, 0;
      fs := Fs(start, seq(inodes, _ => seq(SLOTS, _ => 0)), seq(size, _ => Zeros()), seq(size, b => b < start), map[],
        seq(inodes, _ => []));
      new;
      assert forall x | 0 <= x < inodes ::
        Indirect(fs.disk, fs.names[x], 0) && Holds(fs.disk, fs.names[x], fs.contents[x]);
    }
  }

  const MAXCHUNK: nat := (MAXOPBLOCKS - 1 - 1 - 2) / 2 * BSIZE
  const INT_LIMIT: nat := 0x8000_0000

  /** A chunk of filewrite reaches into at most four blocks, of which at most three may be new. */
  lemma ChunkBound(off: nat, n: nat)
    requires n <= MAXCHUNK
    ensures Spanned(off, n) <= 4 && Starts(off, n) <= 3
  {
  }

  /** The files after `stored` bytes went to inode i and its size grew up to offset `end`. */
  function Grown(was: seq<seq<Byte>>, i: nat, off: nat, src: seq<Byte>, stored: nat, end: nat): seq<seq<Byte>>
    requires i < |was| && stored <= |src| && end <= off + stored
  {
    if off <= |was[i]| then was[i := Overwrite(was[i], off, src[..stored])[..Max(|was[i]|, end)]] else was
  }

  lemma GrownNone(was: seq<seq<Byte>>, i: nat, off: nat, src: seq<Byte>)
    requires i < |was|
    ensures Grown(was, i, off, src, 0, off) == was
  {
    if off <= |was[i]| { assert Overwrite(was[i], off, src[..0])[..|was[i]|] == was[i]; }
  }

  lemma GrownSize(was: seq<seq<Byte>>, now: seq<seq<Byte>>, i: nat, off: nat, src: seq<Byte>, k: nat)
    requires i < |was| && k <= |src| && now == Grown(was, i, off, src, k, off + k)
    ensures |now| == |was| && (off <= |was[i]| ==> off + k <= |now[i]|) && (off > |was[i]| ==> now == was)
  {
  }

  /** A chunk written after k bytes of filewrite. */
  lemma ChunkStored(was: seq<seq<Byte>>, now: seq<seq<Byte>>, i: nat, off: nat, src: seq<Byte>, k: nat, n1: nat,
      readable: nat, at: nat, stored: nat, end: nat)
    requires i < |was| && k + n1 <= |src| && at == off + k && now == Grown(was, i, off, src, k, at)
    requires stored == k + Min(n1, readable) && end == at + Reported(at, n1, readable)
    ensures end <= off + stored && (off <= |was[i]| ==> i < |now| && at <= |now[i]|)
    ensures off <= |was[i]| ==>
      now[i := Landed(now[i], at, src[k..k + n1], readable)] == Grown(was, i, off, src, stored, end)
  {
    if off <= |was[i]| {
      var d, w := src[k..k + n1], Min(n1, readable);
      assert now[i] == Overwrite(was[i], off, src[..k]);
      OverwriteAgain(was[i], off, src[..k], d[..w]);
      assert src[..k] + d[..w] == src[..k + w];
      LandedSize(now[i], off + k, d, readable);
    }
  }

  /** All but the indirect block of inode i, whose words before j name nothing any more. */
  ghost predicate Emptying(f: Fs, i: nat, j: nat) {
    && Base(f) && HoldsAll(f.names, f.disk, f.contents) && i < |f.names| && f.contents[i] == []
    && (forall x {:trigger Indirect(f.disk, f.names[x], 0)} | 0 <= x < |f.names| && x != i ::
        Indirect(f.disk, f.names[x], 0))
    && Indirect(f.disk, f.names[i], j)
  }

  lemma ReleasedHolds(f: Fs, i: nat, k: nat)
    requires Base(f) && HoldsAll(f.names, f.disk, f.contents) && IsSlot(f.names, i, k) && f.names[i][k] != 0
      && f.contents[i] == []
    ensures Base(Released(f, i, k)) && f.used[f.names[i][k]] && HoldsAll(Released(f, i, k).names, f.disk, f.contents)
  {
    ReleasedBase(f, i, k);
    var t := Released(f, i, k);
    forall x | 0 <= x < |t.names| ensures Holds(t.disk, t.names[x], t.contents[x]) {
      assert Holds(f.disk, f.names[x], f.contents[x]);
    }
  }

  /** A direct block goes back to the free map. */
  lemma ReleasedSound(f: Fs, i: nat, k: nat)
    requires Sound(f) && IsSlot(f.names, i, k) && f.names[i][k] != 0 && f.contents[i] == [] && k < NDIRECT
    ensures f.names[i][k] < |f.used| && f.used[f.names[i][k]] && Sound(Released(f, i, k))
  {
    ReleasedHolds(f, i, k);
    var t := Released(f, i, k);
    forall x | 0 <= x < |t.names| ensures Indirect(t.disk, t.names[x], 0) {
      assert Indirect(f.disk, f.names[x], 0);
    }
  }

  lemma EmptyingMore(f: Fs, i: nat, j: nat)
    requires Emptying(f, i, j) && j < NINDIRECT && f.names[i][NDIRECT] != 0
    ensures f.names[i][NDIRECT + 1 + j] == 0 ==> Emptying(f, i, j + 1)
    ensures f.names[i][NDIRECT + 1 + j] != 0 ==>
      && f.names[i][NDIRECT + 1 + j] < |f.used| && f.used[f.names[i][NDIRECT + 1 + j]]
      && Emptying(Released(f, i, NDIRECT + 1 + j), i, j + 1)
  {
    if f.names[i][NDIRECT + 1 + j] != 0 {
      ReleasedHolds(f, i, NDIRECT + 1 + j);
      var t := Released(f, i, NDIRECT + 1 + j);
      forall x | 0 <= x < |t.names| && x != i ensures Indirect(t.disk, t.names[x], 0) {
        assert Indirect(f.disk, f.names[x], 0);
      }
    }
  }

  /** The indirect block goes back last. */
  lemma ReleasedLast(f: Fs, i: nat)
    requires Emptying(f, i, NINDIRECT) && f.names[i][NDIRECT] != 0
    ensures f.names[i][NDIRECT] < |f.used| && f.used[f.names[i][NDIRECT]] && Sound(Released(f, i, NDIRECT))
    ensures forall k | NDIRECT <= k < SLOTS :: Released(f, i, NDIRECT).names[i][k] == 0
  {
    ReleasedHolds(f, i, NDIRECT);
    var t := Released(f, i, NDIRECT);
    forall x | 0 <= x < |t.names| ensures Indirect(t.disk, t.names[x], 0) {
      assert x != i ==> Indirect(f.disk, f.names[x], 0);
    }
  }

  /** The free map lost exactly the blocks of inode i. */
  ghost predicate FreedOf(was: Fs, now: Fs, i: nat) {
    && |now.used| == |was.used|
    && forall b | 0 <= b < |was.used| :: now.used[b] <==> was.used[b] && !(b in was.owner && was.owner[b].0 == i)
  }

  lemma FreedExactly(was: Fs, now: Fs, i: nat)
    requires Base(was) && Base(now) && |was.used| == |now.used| && was.start == now.start
    requires i < |was.names| == |now.names| && now.names == was.names[i := now.names[i]]
    requires forall k | 0 <= k < SLOTS :: now.names[i][k] == 0
    ensures FreedOf(was, now, i)
  {
    forall b | 0 <= b < |was.used| ensures b in now.owner <==> b in was.owner && was.owner[b].0 != i {
      if b in now.owner {
        assert IsSlot(now.names, now.owner[b].0, now.owner[b].1);
        assert was.names[now.owner[b].0][now.owner[b].1] == b;
      }
      if b in was.owner && was.owner[b].0 != i {
        assert IsSlot(was.names, was.owner[b].0, was.owner[b].1);
        assert now.names[was.owner[b].0][was.owner[b].1] == b;
      }
    }
  }


  /** Bytes of a file that lie in one block are in that block, one after the other. */
  lemma ReadsChunk(f: Fs, i: nat, off: nat, m: nat, k: nat)
    requires Sound(f) && i < |f.names| && off + m <= |f.contents[i]| && 0 < m <= BSIZE - off % BSIZE && k <= m
    ensures off / BSIZE < MAXFILE && f.names[i][SlotAt(off)] != 0 && f.names[i][SlotAt(off)] < |f.disk|
    ensures |f.disk[f.names[i][SlotAt(off)]]| == BSIZE
    ensures f.disk[f.names[i][SlotAt(off)]][off % BSIZE..off % BSIZE + k] == f.contents[i][off..off + k]
  {
    var c := f.contents[i];
    assert Holds(f.disk, f.names[i], c) && Reads(f.disk, f.names[i], off, c[off]);
    var b := f.disk[f.names[i][SlotAt(off)]];
    var s, t := b[off % BSIZE..off % BSIZE + k], c[off..off + k];
    forall j | 0 <= j < k ensures s[j] == t[j] {
      SameBlock(off, m, off + j);
      assert Reads(f.disk, f.names[i], off + j, c[off + j]);
    }
  }

  datatype Outcome = Panic | Done(value: int)

  lemma LandedSize(c: seq<Byte>, off: nat, src: seq<Byte>, readable: nat)
    requires off <= |c|
    ensures |Landed(c, off, src, readable)| == Max(|c|, off + Reported(off, |src|, readable))
    ensures Reported(off, |src|, readable) <= Min(|src|, readable)
  {
  }


  /** Inode i still names what it named. */
  ghost predicate Kept(was: seq<seq<nat>>, now: seq<seq<nat>>, i: nat) {
    && i < |was| == |now| && |was[i]| == |now[i]| == SLOTS
    && forall k | 0 <= k < SLOTS :: now[i][k] == was[i][k] || was[i][k] == 0
  }

  /** The blocks logged so far: data blocks of the range, the indirect block, and `marks` of the free map. */
  ghost predicate LoggedSoFar(was: set<nat>, logged: set<nat>, slots: seq<nat>, lo: nat, hi: nat, marks: set<nat>) {
    |slots| == SLOTS && hi <= MAXFILE && logged <= was + DataBlocks(slots, lo, hi) + IndirectOf(slots) + marks
  }

  ghost predicate Writable(f: Fs, i: nat, off: nat, src: seq<Byte>) {
    i < |f.names| == |f.contents| && off <= |f.contents[i]| && off + |src| <= MAXFILE * BSIZE
  }

  /** Where a chunk of a writei of n bytes may begin or end. */
  predicate Boundary(off: nat, n: nat, tot: nat) { tot == 0 || tot == n || (off + tot) % BSIZE == 0 }

  /** The files after tot bytes of a writei. */
  function Target(was: seq<seq<Byte>>, i: nat, off: nat, src: seq<Byte>, tot: nat): seq<seq<Byte>>
    requires i < |was| && off <= |was[i]| && tot <= |src|
  {
    was[i := Overwrite(was[i], off, src[..tot])]
  }

  /** The blocks logged by then, at most one of the free map for every block begun and one for the indirect block. */
  ghost predicate Logs(was: seq<seq<nat>>, now: seq<seq<nat>>, i: nat, off: nat, n: nat, tot: nat, logged0: set<nat>,
      logged: set<nat>, marks: set<nat>) {
    && Kept(was, now, i)
    && LoggedSoFar(logged0, logged, now[i], off / BSIZE, (off + n + BSIZE - 1) / BSIZE, marks)
    && |marks| <= Starts(off, tot) + Fresh(was, now, i)
  }

  lemma WriteStart(f: Fs, i: nat, off: nat, src: seq<Byte>, logged: set<nat>)
    requires Sound(f) && i < |f.names| && off <= |f.contents[i]| && off + |src| <= MAXFILE * BSIZE
    ensures f.contents == Target(f.contents, i, off, src, 0)
      && Logs(f.names, f.names, i, off, |src|, 0, logged, logged, {})
  {
    assert Overwrite(f.contents[i], off, src[..0]) == f.contents[i];
    assert f.contents[i := f.contents[i]] == f.contents;
  }

  /** What writing within the block of offset off logs: only a block that begins there may be new. */
  ghost predicate LogsOne(was: seq<seq<nat>>, now: seq<seq<nat>>, i: nat, off: nat, logged: set<nat>,
      logged': set<nat>, marks: set<nat>) {
    && Kept(was, now, i) && SlotAt(off) < SLOTS && now[i][SlotAt(off)] != 0
    && logged' <= logged + {now[i][SlotAt(off)]} + IndirectOf(now[i]) + marks
    && |marks| <= (if off % BSIZE == 0 then 1 else 0) + Fresh(was, now, i)
  }

  lemma LogsMore(was: seq<seq<nat>>, names1: seq<seq<nat>>, names2: seq<seq<nat>>, i: nat, off: nat, n: nat, tot: nat,
      m: nat,
      logged0: set<nat>, logged1: set<nat>, logged2: set<nat>, marks: set<nat>, more: set<nat>)
    requires tot < n && m == Min(n - tot, BSIZE - (off + tot) % BSIZE) && Boundary(off, n, tot)
    requires Logs(was, names1, i, off, n, tot, logged0, logged1, marks)
      && LogsOne(names1, names2, i, off + tot, logged1, logged2, more)
    ensures Logs(was, names2, i, off, n, tot + m, logged0, logged2, marks + more)
    ensures Logs(was, names2, i, off, n, n, logged0, logged2, marks + more)
  {
    StartsMore(off, n, tot, m);
    UnionSize(marks, more);
    Within(off, n, tot);
    LoggedMore(logged0, logged1, names1[i], off / BSIZE, (off + n + BSIZE - 1) / BSIZE, marks, logged2, names2[i],
      (off + tot) / BSIZE, more);
  }

  lemma Within(off: nat, n: nat, tot: nat)
    requires tot < n
    ensures off / BSIZE <= (off + tot) / BSIZE < (off + n + BSIZE - 1) / BSIZE
  {
  }

  lemma LogsEnd(was: seq<seq<nat>>, now: seq<seq<nat>>, i: nat, off: nat, n: nat, logged0: set<nat>, logged: set<nat>,
      marks: set<nat>)
      returns (touched: set<nat>)
    requires Logs(was, now, i, off, n, n, logged0, logged, marks)
    ensures logged <= logged0 + touched && |touched| <= Spanned(off, n) + Starts(off, n) + 2
  {
    var lo, hi := off / BSIZE, (off + n + BSIZE - 1) / BSIZE;
    var d, e := DataBlocks(now[i], lo, hi), IndirectOf(now[i]);
    DataBlocksSize(now[i], lo, hi);
    UnionSize(d + e, marks);
    UnionSize(d, e);
    touched := d + e + marks;
  }

  lemma LoggedMore(was: set<nat>, logged: set<nat>, slots: seq<nat>, lo: nat, hi: nat, marks: set<nat>,
      logged': set<nat>, slots': seq<nat>, bn: nat, more: set<nat>)
    requires LoggedSoFar(was, logged, slots, lo, hi, marks) && |slots'| == SLOTS && lo <= bn < hi
      && slots'[SlotOf(bn)] != 0
    requires forall k | 0 <= k < SLOTS :: slots'[k] == slots[k] || slots[k] == 0
    requires logged' <= logged + {slots'[SlotOf(bn)]} + IndirectOf(slots') + more
    ensures LoggedSoFar(was, logged', slots', lo, hi, marks + more)
  {
    assert slots'[SlotOf(bn)] in DataBlocks(slots', lo, hi);
    forall x | x in DataBlocks(slots, lo, hi) ensures x in DataBlocks(slots', lo, hi) {
      var b: nat :| lo <= b < hi && slots[SlotOf(b)] != 0 && slots[SlotOf(b)] == x;
      assert slots'[SlotOf(b)] == x;
    }
    assert IndirectOf(slots) <= IndirectOf(slots');
  }

  lemma {:induction false} DataBlocksSize(slots: seq<nat>, lo: nat, hi: nat)
    requires |slots| == SLOTS && lo <= hi <= MAXFILE
    ensures |DataBlocks(slots, lo, hi)| <= hi - lo
    decreases hi - lo
  {
    if lo < hi {
      DataBlocksSize(slots, lo + 1, hi);
      var rest, b := DataBlocks(slots, lo + 1, hi), slots[SlotOf(lo)];
      assert DataBlocks(slots, lo, hi) == if b == 0 then rest else rest + {b};
    } else {
      assert DataBlocks(slots, lo, hi) == {};
    }
  }

  /** Every block that begins in the range may be new, and no other one. */
  lemma StartsMore(off: nat, n: nat, tot: nat, m: nat)
    requires tot < n && m == Min(n - tot, BSIZE - (off + tot) % BSIZE) && (tot == 0 || (off + tot) % BSIZE == 0)
    ensures Starts(off, tot + m) == Starts(off, tot) + if (off + tot) % BSIZE == 0 then 1 else 0
    ensures Starts(off, tot + m) <= Starts(off, n)
    ensures tot + m == n || (off + tot + m) % BSIZE == 0
  {
    var a := off + tot;
    assert a == a / BSIZE * BSIZE + a % BSIZE;
    CeilStep(a, m);
  }

  lemma CeilStep(a: nat, m: nat)
    requires 0 < m <= BSIZE - a % BSIZE
    ensures (a + m + BSIZE - 1) / BSIZE == a / BSIZE + 1
    ensures (a + BSIZE - 1) / BSIZE == if a % BSIZE == 0 then a / BSIZE else a / BSIZE + 1
  {
  }

  lemma ChunkDone(c: seq<Byte>, off: nat, src: seq<Byte>, tot: nat, m: nat, avail: nat)
    requires off <= |c| && tot + m <= |src| && m <= avail
    ensures Chunk(Overwrite(c, off, src[..tot]), off + tot, src[tot..tot + m], avail) ==
      Overwrite(c, off, src[..tot + m])
  {
    OverwriteAgain(c, off, src[..tot], src[tot..tot + m]);
    assert src[..tot] + src[tot..tot + m] == src[..tot + m];
  }

  /** What one turn makes of the files. */
  lemma ChunkStep(was: seq<seq<Byte>>, now: seq<seq<Byte>>, i: nat, off: nat, src: seq<Byte>, readable: nat, tot: nat,
      m: nat)
    requires i < |was| && off <= |was[i]| && tot < |src| && tot <= readable && now == Target(was, i, off, src, tot)
    requires m == Min(|src| - tot, BSIZE - (off + tot) % BSIZE) && Boundary(off, |src|, tot)
    ensures 0 < m && (off + tot) % BSIZE + m <= BSIZE
    ensures tot + m <= |src| && Boundary(off, |src|, tot + m) && off + tot <= |now[i]|
    ensures var t := now[i := Chunk(now[i], off + tot, src[tot..tot + m], readable - tot)];
      if m <= readable - tot then t == Target(was, i, off, src, tot + m)
      else t == was[i := Landed(was[i], off, src, readable)] && tot == Reported(off, |src|, readable)
  {
    StartsMore(off, |src|, tot, m);
    if m <= readable - tot {
      ChunkDone(was[i], off, src, tot, m, readable - tot);
    } else {
      ReportedMeans(off, |src|, readable, tot, m);
      ChunkFailed(was[i], off, src, readable, tot, m);
    }
  }

  lemma LandedAll(c: seq<Byte>, off: nat, src: seq<Byte>, readable: nat)
    requires off <= |c| && |src| <= readable
    ensures Landed(c, off, src, readable) == Overwrite(c, off, src[..|src|]) && src[..|src|] == src
  {
  }

  lemma ReportedMeans(off: nat, n: nat, readable: nat, tot: nat, m: nat)
    requires tot < n && m == Min(n - tot, BSIZE - (off + tot) % BSIZE) && (tot == 0 || (off + tot) % BSIZE == 0)
    requires tot <= readable < tot + m
    ensures Reported(off, n, readable) == tot
  {
    var a := off + tot;
    if tot == 0 {
      assert m <= BSIZE - off % BSIZE;
    } else {
      assert a == a / BSIZE * BSIZE;
      assert (a + (readable - tot)) % BSIZE == readable - tot;
      assert readable >= BSIZE - off % BSIZE by { assert off == off / BSIZE * BSIZE + off % BSIZE; }
    }
  }

  lemma ChunkFailed(c: seq<Byte>, off: nat, src: seq<Byte>, readable: nat, tot: nat, m: nat)
    requires off <= |c| && tot + m <= |src| && tot <= readable < tot + m && Reported(off, |src|, readable) == tot
    ensures Chunk(Overwrite(c, off, src[..tot]), off + tot, src[tot..tot + m], readable - tot) ==
      Landed(c, off, src, readable)
  {
    var d := src[tot..tot + m];
    assert d[..readable - tot] == src[tot..readable];
    OverwriteAgain(c, off, src[..tot], src[tot..readable]);
    assert src[..tot] + src[tot..readable] == src[..readable];
  }

  /** The blocks named for block numbers lo up to hi. */
  ghost function DataBlocks(slots: seq<nat>, lo: nat, hi: nat): set<nat> requires |slots| == SLOTS && hi <= MAXFILE {
    set bn: nat | lo <= bn < hi && slots[SlotOf(bn)] != 0 :: slots[SlotOf(bn)]
  }

  /** How many blocks n bytes from off reach into, and how many begin there. */
  function Spanned(off: nat, n: nat): nat { (off + n + BSIZE - 1) / BSIZE - off / BSIZE }
  function Starts(off: nat, n: nat): nat { (off + n + BSIZE - 1) / BSIZE - (off + BSIZE - 1) / BSIZE }

  /** What writei reports for n bytes of which `readable` can be read: whole chunks. */
  function Reported(off: nat, n: nat, readable: nat): nat {
    if n <= readable then n
    else if readable < BSIZE - off % BSIZE then 0
    else readable - (off + readable) % BSIZE
  }

  lemma ReportedAll(off: nat, n: nat, readable: nat)
    ensures Reported(off, n, readable) <= Min(n, readable) && (Reported(off, n, readable) == n <==> n <= readable)
  {
  }

  /** The file after writei: all that could be read is stored, the size grows by what is reported. */
  function Landed(c: seq<Byte>, off: nat, src: seq<Byte>, readable: nat): seq<Byte>
    requires off <= |c|
  {
    Overwrite(c, off, src[..Min(|src|, readable)])[..Max(|c|, off + Reported(off, |src|, readable))]
  }

  /** The indirect block, if there is one. */
  ghost function IndirectOf(slots: seq<nat>): set<nat> requires |slots| == SLOTS {
    if slots[NDIRECT] == 0 then {} else {slots[NDIRECT]}
  }

  /** A file after bytes d were copied to offset off within a block. If only a part of d can be
      read, that part is in the block, but the file grows no longer. */
  function Chunk(c: seq<Byte>, off: nat, d: seq<Byte>, avail: nat): seq<Byte> requires off <= |c| {
    if |d| <= avail then Overwrite(c, off, d) else Overwrite(c, off, d[..avail])[..|c|]
  }

  function Chunked(f: Fs, i: nat, off: nat, d: seq<Byte>, avail: nat): Fs
    requires i < |f.names| == |f.contents| && SlotAt(off) < |f.names[i]| && f.names[i][SlotAt(off)] < |f.disk|
      && off <= |f.contents[i]|
    requires off % BSIZE + |d| <= |f.disk[f.names[i][SlotAt(off)]]|
  {
    Stored(f, i, off, if |d| <= avail then d else d[..avail]).(contents :=
      f.contents[i := Chunk(f.contents[i], off, d, avail)])
  }

  lemma ChunkSound(f: Fs, i: nat, off: nat, d: seq<Byte>, avail: nat)
    requires Sound(f) && i < |f.names| && off <= |f.contents[i]| && off + |d| <= MAXFILE * BSIZE
      && off % BSIZE + |d| <= BSIZE
    requires off < MAXFILE * BSIZE && f.names[i][SlotAt(off)] != 0
    ensures f.names[i][SlotAt(off)] < |f.disk| && |f.disk[f.names[i][SlotAt(off)]]| == BSIZE
    ensures Sound(Chunked(f, i, off, d, avail))
  {
    var e := if |d| <= avail then d else d[..avail];
    StoredSound(f, i, off, e);
    var t := Stored(f, i, off, e).(contents := f.contents[i := Overwrite(f.contents[i], off, e)]);
    if |d| > avail {
      TrimSound(t, i, |f.contents[i]|);
      assert t.contents[i := t.contents[i][..|f.contents[i]|]] == f.contents[i := Chunk(f.contents[i], off, d, avail)];
    }
  }

  /** The block of an unaligned offset up to the end of the file is there already. */
  lemma MappedBefore(f: Fs, i: nat, off: nat)
    requires Sound(f) && i < |f.names| && off <= |f.contents[i]| && off % BSIZE != 0
    ensures off / BSIZE < MAXFILE && f.names[i][SlotAt(off)] != 0
  {
    var o := off - 1;
    assert o / BSIZE == off / BSIZE;
    assert Holds(f.disk, f.names[i], f.contents[i]);
    assert Reads(f.disk, f.names[i], o, f.contents[i][o]);
  }

  /** 1 if the indirect block of inode i is new. */
  ghost function Fresh(was: seq<seq<nat>>, now: seq<seq<nat>>, i: nat): nat
    requires i < |was| == |now| && |was[i]| == |now[i]| == SLOTS
  {
    if was[i][NDIRECT] == 0 && now[i][NDIRECT] != 0 then 1 else 0
  }

  lemma NamedViaAll(f: Fs, i: nat, k: nat, b: nat)
    requires Sound(f) && IsSlot(f.names, i, k) && NDIRECT < k && f.names[i][NDIRECT] != 0
    requires f.names[i][k] == 0 && b < |f.used| && !f.used[b]
    ensures f.names[i][NDIRECT] < |f.disk| && f.names[i][NDIRECT] != b && b != 0
      && |f.disk[f.names[i][NDIRECT]]| == BSIZE
    ensures var t, a := NamedVia(f, i, k, b), f.names[i][NDIRECT];
      && Sound(t) && t.disk == f.disk[b := Zeros()][a := PutWord(f.disk[a], k - NDIRECT - 1, b)]
      && Grew(f.names, t.names, i, {k}) && t.names[i][..NDIRECT + 1] == f.names[i][..NDIRECT + 1]
  {
    NamedViaBase(f, i, k, b);
    NamedViaSound(f, i, k, b);
  }

  lemma GrewTwice(a: seq<seq<nat>>, b: seq<seq<nat>>, c: seq<seq<nat>>, i: nat, k: nat, l: nat)
    requires Grew(a, b, i, {k}) && Grew(b, c, i, {l}) && k != l && k < SLOTS
    ensures Grew(a, c, i, {l, k}) && c[i][k] == b[i][k]
  {
  }

  lemma UnionSize(a: set<nat>, b: set<nat>)
    ensures |a + b| <= |a| + |b|
  {
    assert a + b == a + (b - a) && |b - a| + |b * a| == |b| by { assert (b - a) + (b * a) == b; }
  }

  lemma SameMapBlock(b: nat, bi: nat)
    requires b % BPB == 0 && bi < BPB
    ensures (b + bi) / BPB == b / BPB
  {
  }

  /** Only slots in `ks` of inode i may name more than before. */
  ghost predicate Grew(was: seq<seq<nat>>, now: seq<seq<nat>>, i: nat, ks: set<nat>) {
    && i < |was| == |now| && now == was[i := now[i]] && |was[i]| == |now[i]| == SLOTS
    && forall k | 0 <= k < SLOTS :: now[i][k] == was[i][k] || (k in ks && was[i][k] == 0)
  }

  /** A writei of readable bytes is read back, and what lies outside is as before. */
  lemma ReadBack(c: seq<Byte>, off: nat, src: seq<Byte>, readable: nat)
    requires off <= |c| && |src| <= readable
    ensures var t := Landed(c, off, src, readable);
      && off + |src| <= |t| && t[off..off + |src|] == src && t[..off] == c[..off]
      && t[off + |src|..] == if off + |src| < |c| then c[off + |src|..] else []
  {
    LandedAll(c, off, src, readable);
  }

  // ---- only the reported bytes?

  /** The part of the source that can be read ends where a block of the file ends. */
  predicate EndsAtBlock(off: nat, n: nat, readable: nat) {
    n <= readable || readable == 0 || (off + readable) % BSIZE == 0
  }

  lemma ReportsAll(off: nat, n: nat, readable: nat)
    ensures Reported(off, n, readable) == Min(n, readable) <==> EndsAtBlock(off, n, readable)
  {
    if readable < n && 0 < readable < BSIZE - off % BSIZE {
      assert (off + readable) % BSIZE == off % BSIZE + readable by {
        SameBlock(off, BSIZE - off % BSIZE, off + readable); }
    }
  }

  ghost predicate OnlyReported(c: seq<Byte>, off: nat, src: seq<Byte>, readable: nat) requires off <= |c| {
    Landed(c, off, src, readable) == Overwrite(c, off, src[..Reported(off, |src|, readable)])
  }

  /** A writei that reports fewer bytes than it stored, and changes a byte it does not report. */
  lemma StoresUnreported()
    ensures Reported(0, 2, 1) == 0 && Landed([0, 0], 0, [1, 1], 1) == [1, 0] && !OnlyReported([0, 0], 0, [1, 1], 1)
  {
    var c: seq<Byte>, d: seq<Byte> := [0, 0], [1, 1];
    assert Landed(c, 0, d, 1) == Overwrite(c, 0, d[..1])[..2] == [1, 0];
    assert Overwrite(c, 0, d[..0])[0] == 0;
  }

  /** For files of this size, writei changes just the bytes it reports, whatever they are, exactly
      if the readable part ends at a block or nothing beyond what is reported was in the file. */
  lemma OnlyReportedIff(size: nat, off: nat, n: nat, readable: nat)
    requires off <= size
    ensures (forall c, src | |c| == size && |src| == n :: OnlyReported(c, off, src, readable))
      <==> EndsAtBlock(off, n, readable) || off + Reported(off, n, readable) >= size
  {
    ReportsAll(off, n, readable);
    var tot, w := Reported(off, n, readable), Min(n, readable);
    if EndsAtBlock(off, n, readable) || off + tot >= size {
      forall c: seq<Byte>, src: seq<Byte> | |c| == size && |src| == n ensures OnlyReported(c, off, src, readable) {
        LandedSize(c, off, src, readable);
        assert Landed(c, off, src, readable) == Overwrite(c, off, src[..tot]);
      }
    } else {
      var c: seq<Byte>, src: seq<Byte> := seq(size, _ => 0), seq(n, _ => 1);
      LandedSize(c, off, src, readable);
      OverwriteAt(c, off, src[..w], off + tot);
      OverwriteAt(c, off, src[..tot], off + tot);
      assert Landed(c, off, src, readable)[off + tot] == 1;
      assert !OnlyReported(c, off, src, readable);
    }
  }
}
