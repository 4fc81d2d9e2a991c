/** The blocks of guest/xv6/kernel/fs.c as values: which inode slot names each block, which
    blocks the free map marks, and the byte sequence every inode stands for. */
module FsBlocks {
  const BSIZE: nat := 1024
  const NDIRECT: nat := 12
  const NINDIRECT: nat := 256                // BSIZE / sizeof(uint)
  const MAXFILE: nat := 268                  // NDIRECT + NINDIRECT
  const SLOTS: nat := 269                    // direct, the indirect block itself, indirect
  const U32: nat := 0x1_0000_0000

  type Byte = x: int | 0 <= x < 256
  type Block = seq<Byte>

  // ---- the words of an indirect block

  /** Little-endian word j of a block. */
  function Word(b: Block, j: nat): nat requires 4 * j + 3 < |b| {
    b[4 * j] as int + 0x100 * (b[4 * j + 1] as int) + 0x1_0000 * (b[4 * j + 2] as int) +
      0x100_0000 * (b[4 * j + 3] as int)
  }

  function PutWord(b: Block, j: nat, v: nat): (r: Block)
    requires 4 * j + 3 < |b|
    ensures |r| == |b|
  {
    b[4 * j := v % 0x100][4 * j + 1 := v / 0x100 % 0x100][4 * j + 2 := v / 0x1_0000 % 0x100][4 * j + 3 :=
      v / 0x100_0000 % 0x100]
  }

  lemma WordPut(b: Block, j: nat, v: nat, k: nat)
    requires 4 * j + 3 < |b| && 4 * k + 3 < |b| && v < U32
    ensures Word(PutWord(b, j, v), k) == if k == j then v else Word(b, k)
  {
    if k == j {
      assert v / 0x1_0000 == v / 0x100 / 0x100 && v / 0x100_0000 == v / 0x100 / 0x100 / 0x100;
    }
  }

  function Zeros(): (z: Block) ensures |z| == BSIZE && forall o | 0 <= o < BSIZE :: z[o] == 0 { seq(BSIZE, _ => 0) }

  // ---- the state

  /** `names[i][k]` is the block that slot k of inode i names, 0 for none: slots below NDIRECT
      are direct, slot NDIRECT is the indirect block, and the rest are its words. `owner` gives
      the slot that names a block. Blocks below `start` hold the boot block, the super block,
      the log, the inodes and the free map. `contents[i]` is the file that inode i stands for. */
  datatype Fs = Fs(
    start: nat, names: seq<seq<nat>>, disk: seq<Block>, used: seq<bool>, owner: map<nat, (nat, nat)>,
      contents: seq<seq<Byte>>)

  ghost predicate Shape(names: seq<seq<nat>>, disk: seq<Block>, used: seq<bool>) {
    && |disk| == |used| < U32
    && (forall b | 0 <= b < |disk| :: |disk[b]| == BSIZE)
    && (forall i | 0 <= i < |names| :: |names[i]| == SLOTS)
  }

  ghost predicate IsSlot(names: seq<seq<nat>>, i: nat, k: nat) { i < |names| && k < SLOTS == |names[i]| }

  /** Every named block is named once, and `owner` says where. */
  ghost predicate Owned(names: seq<seq<nat>>, owner: map<nat, (nat, nat)>) {
    && (forall i, k {:trigger names[i][k]} | 0 <= i < |names| && 0 <= k < |names[i]| && names[i][k] != 0 ::
          names[i][k] in owner && owner[names[i][k]] == (i, k))
    && (forall b {:trigger IsSlot(names, owner[b].0, owner[b].1)} | b in owner ::
          IsSlot(names, owner[b].0, owner[b].1) && names[owner[b].0][owner[b].1] == b)
  }

  /** The free map marks exactly the metadata and the blocks some slot names. */
  ghost predicate Marked(start: nat, used: seq<bool>, owner: map<nat, (nat, nat)>) {
    && 0 < start
    && (forall b | 0 <= b < |used| :: used[b] <==> (b < start || b in owner))
    && (forall b {:trigger b in owner} | b in owner :: start <= b < |used|)
  }

  /** From word j on, the slots of inode i say what the indirect block says; before, nothing. */
  ghost predicate Indirect(disk: seq<Block>, slots: seq<nat>, j: nat) {
    && |slots| == SLOTS
    && (slots[NDIRECT] == 0 ==> forall k | NDIRECT < k < SLOTS :: slots[k] == 0)
    && (slots[NDIRECT] != 0 ==>
          && slots[NDIRECT] < |disk| && |disk[slots[NDIRECT]]| == BSIZE
          && forall k | NDIRECT < k < SLOTS ::
               slots[k] == if k <= NDIRECT + j then 0 else Word(disk[slots[NDIRECT]], k - NDIRECT - 1))
  }

  /** Slot of block number bn of a file. */
  function SlotOf(bn: nat): nat { if bn < NDIRECT then bn else bn + 1 }

  /** Slot and place of the byte at an offset. */
  function SlotAt(off: nat): nat { SlotOf(off / BSIZE) }

  ghost predicate Reads(disk: seq<Block>, slots: seq<nat>, off: nat, x: Byte) {
    && SlotAt(off) < |slots| && slots[SlotAt(off)] != 0 && slots[SlotAt(off)] < |disk|
    && |disk[slots[SlotAt(off)]]| == BSIZE && disk[slots[SlotAt(off)]][off % BSIZE] == x
  }

  /** The blocks of an inode hold the bytes c. */
  ghost predicate Holds(disk: seq<Block>, slots: seq<nat>, c: seq<Byte>) {
    && |c| <= MAXFILE * BSIZE
    && forall off {:trigger c[off]} | 0 <= off < |c| :: Reads(disk, slots, off, c[off])
  }

  /** All but the indirect blocks and the contents. */
  ghost predicate Base(f: Fs) {
    Shape(f.names, f.disk, f.used) && Owned(f.names, f.owner) && Marked(f.start, f.used, f.owner)
  }

  ghost predicate IndirectAll(names: seq<seq<nat>>, disk: seq<Block>) {
    forall i {:trigger Indirect(disk, names[i], 0)} | 0 <= i < |names| :: Indirect(disk, names[i], 0)
  }

  ghost predicate HoldsAll(names: seq<seq<nat>>, disk: seq<Block>, contents: seq<seq<Byte>>) {
    |contents| == |names| && forall i {:trigger Holds(disk, names[i], contents[i])} | 0 <= i < |names| ::
      Holds(disk, names[i], contents[i])
  }

  ghost predicate Sound(f: Fs) { Base(f) && IndirectAll(f.names, f.disk) && HoldsAll(f.names, f.disk, f.contents) }

  /** No block is named by two slots. */
  lemma NamedOnce(f: Fs, i: nat, k: nat, i': nat, k': nat)
    requires Sound(f) && IsSlot(f.names, i, k) && IsSlot(f.names, i', k')
    requires f.names[i][k] != 0 && f.names[i][k] == f.names[i'][k']
    ensures i == i' && k == k'
  {
    assert f.owner[f.names[i][k]] == (i, k);
  }

  /** A data block is marked exactly if some slot names it. */
  lemma MarkedIffNamed(f: Fs, b: nat)
    requires Sound(f) && f.start <= b < |f.used|
    ensures f.used[b] <==> exists i: nat, k: nat :: IsSlot(f.names, i, k) && f.names[i][k] == b
  {
    if b in f.owner {
      assert IsSlot(f.names, f.owner[b].0, f.owner[b].1) && f.names[f.owner[b].0][f.owner[b].1] == b;
    } else {
      forall i: nat, k: nat | IsSlot(f.names, i, k) ensures f.names[i][k] != b { Unnamed(f.names, f.owner, i, b); }
    }
  }

  /** No slot names two files' bytes: the slot of an offset is never the indirect block's. */
  lemma SlotAtMeans(off: nat)
    requires off < MAXFILE * BSIZE
    ensures SlotAt(off) < SLOTS && SlotAt(off) != NDIRECT
  {
  }

  // ---- giving a slot a new block

  function With(slots: seq<nat>, k: nat, b: nat): seq<nat> requires k < |slots| { slots[k := b] }

  /** Slot k of inode i names the zeroed block b. */
  function Named(f: Fs, i: nat, k: nat, b: nat): Fs
    requires i < |f.names| && k < |f.names[i]| && b < |f.disk| && b < |f.used|
  {
    f.(names := f.names[i := With(f.names[i], k, b)], disk := f.disk[b := Zeros()], used := f.used[b := true], owner :=
      f.owner[b := (i, k)])
  }

  lemma NamedBase(f: Fs, i: nat, k: nat, b: nat)
    requires Base(f) && IsSlot(f.names, i, k) && f.names[i][k] == 0 && b < |f.used| && !f.used[b]
    ensures Base(Named(f, i, k, b)) && b !in f.owner && b != 0
  {
    var t := Named(f, i, k, b);
    assert b !in f.owner;
    forall x | x in t.owner
      ensures IsSlot(t.names, t.owner[x].0, t.owner[x].1) && t.names[t.owner[x].0][t.owner[x].1] == x
    {
      if x != b { assert t.owner[x] == f.owner[x] && IsSlot(f.names, f.owner[x].0, f.owner[x].1); }
    }
  }

  /** Changing a block that an inode does not name changes nothing it holds. */
  lemma HoldsElsewhere(disk: seq<Block>, slots: seq<nat>, c: seq<Byte>, b: nat, x: Block)
    requires Holds(disk, slots, c) && b < |disk|
    requires forall k | 0 <= k < |slots| && k != NDIRECT :: slots[k] != 0 ==> slots[k] != b
    ensures Holds(disk[b := x], slots, c)
  {
    var disk' := disk[b := x];
    forall off | 0 <= off < |c| ensures Reads(disk', slots, off, c[off]) {
      assert Reads(disk, slots, off, c[off]);
      SlotAtMeans(off);
    }
  }

  lemma HoldsMore(disk: seq<Block>, slots: seq<nat>, c: seq<Byte>, k: nat, b: nat)
    requires Holds(disk, slots, c) && k < |slots| && slots[k] == 0
    ensures Holds(disk, slots[k := b], c)
  {
    forall off | 0 <= off < |c| ensures Reads(disk, slots[k := b], off, c[off]) {
      assert Reads(disk, slots, off, c[off]);
    }
  }

  lemma IndirectElsewhere(disk: seq<Block>, slots: seq<nat>, j: nat, b: nat, x: Block)
    requires Indirect(disk, slots, j) && b < |disk| && slots[NDIRECT] != b
    ensures Indirect(disk[b := x], slots, j)
  {
  }

  /** An unowned block is not named. */
  lemma Unnamed(names: seq<seq<nat>>, owner: map<nat, (nat, nat)>, i: nat, b: nat)
    requires Owned(names, owner) && i < |names| && b !in owner && b != 0
    ensures forall k | 0 <= k < |names[i]| :: names[i][k] != b
  {
  }

  /** Naming a direct block, or the indirect block, leaves every file as it was. */
  lemma NamedSound(f: Fs, i: nat, k: nat, b: nat)
    requires Sound(f) && IsSlot(f.names, i, k) && k <= NDIRECT && f.names[i][k] == 0 && b < |f.used| && !f.used[b]
    ensures Sound(Named(f, i, k, b))
  {
    NamedBase(f, i, k, b);
    var t := Named(f, i, k, b);
    forall x | 0 <= x < |t.names| ensures Indirect(t.disk, t.names[x], 0) && Holds(t.disk, t.names[x], t.contents[x]) {
      assert Indirect(f.disk, f.names[x], 0) && Holds(f.disk, f.names[x], f.contents[x]);
      Unnamed(f.names, f.owner, x, b);
      HoldsElsewhere(f.disk, f.names[x], f.contents[x], b, Zeros());
      IndirectElsewhere(f.disk, f.names[x], 0, b, Zeros());
      if x == i {
        HoldsMore(t.disk, f.names[i], f.contents[i], k, b);
        ZeroIndirect(t.disk, f.names[i], k, b);
      }
    }
  }

  lemma ZeroIndirect(disk: seq<Block>, slots: seq<nat>, k: nat, b: nat)
    requires Indirect(disk, slots, 0) && k <= NDIRECT && slots[k] == 0 && 0 < b < |disk| && disk[b] == Zeros()
    ensures Indirect(disk, slots[k := b], 0)
  {
  }

  /** Slot k of inode i, a word of its indirect block, names the zeroed block b. */
  function NamedVia(f: Fs, i: nat, k: nat, b: nat): Fs
    requires IsSlot(f.names, i, k) && NDIRECT < k && b < |f.disk| && b < |f.used|
    requires f.names[i][NDIRECT] < |f.disk| && |f.disk[f.names[i][NDIRECT]]| == BSIZE
  {
    var t, a := Named(f, i, k, b), f.names[i][NDIRECT];
    t.(disk := t.disk[a := PutWord(t.disk[a], k - NDIRECT - 1, b)])
  }

  lemma PutIndirect(disk: seq<Block>, slots: seq<nat>, k: nat, b: nat)
    requires Indirect(disk, slots, 0) && NDIRECT < k < SLOTS && slots[NDIRECT] != 0 && b < U32
    ensures Indirect(disk[slots[NDIRECT] := PutWord(disk[slots[NDIRECT]], k - NDIRECT - 1, b)], slots[k := b], 0)
  {
    var a, slots' := slots[NDIRECT], slots[k := b];
    var x := PutWord(disk[a], k - NDIRECT - 1, b);
    forall k' | NDIRECT < k' < SLOTS ensures slots'[k'] == Word(x, k' - NDIRECT - 1) {
      WordPut(disk[a], k - NDIRECT - 1, b, k' - NDIRECT - 1);
    }
  }

  /** The indirect block of inode i is named by no slot of another inode, and by no data slot. */
  lemma IndirectAlone(f: Fs, i: nat, x: nat)
    requires Base(f) && i < |f.names| && x < |f.names| && f.names[i][NDIRECT] != 0
    ensures forall k | 0 <= k < SLOTS && (x != i || k != NDIRECT) :: f.names[x][k] != f.names[i][NDIRECT]
  {
    assert f.owner[f.names[i][NDIRECT]] == (i, NDIRECT);
  }

  lemma NamedViaBase(f: Fs, i: nat, k: nat, b: nat)
    requires Sound(f) && IsSlot(f.names, i, k) && NDIRECT < k && f.names[i][NDIRECT] != 0
    requires f.names[i][k] == 0 && b < |f.used| && !f.used[b]
    ensures f.names[i][NDIRECT] < |f.disk| && f.names[i][NDIRECT] != b && b != 0 && b !in f.owner
    ensures Base(NamedVia(f, i, k, b))
  {
    assert Indirect(f.disk, f.names[i], 0);
    NamedBase(f, i, k, b);
    assert f.owner[f.names[i][NDIRECT]] == (i, NDIRECT);
  }

  /** Naming a block through the indirect block leaves every file as it was. */
  lemma NamedViaSound(f: Fs, i: nat, k: nat, b: nat)
    requires Sound(f) && IsSlot(f.names, i, k) && NDIRECT < k && f.names[i][NDIRECT] != 0
    requires f.names[i][k] == 0 && b < |f.used| && !f.used[b]
    ensures f.names[i][NDIRECT] < |f.disk| && Sound(NamedVia(f, i, k, b))
  {
    NamedViaBase(f, i, k, b);
    var a := f.names[i][NDIRECT];
    var t := NamedVia(f, i, k, b);
    forall x | 0 <= x < |t.names| ensures Indirect(t.disk, t.names[x], 0) && Holds(t.disk, t.names[x], t.contents[x]) {
      assert Indirect(f.disk, f.names[x], 0) && Holds(f.disk, f.names[x], f.contents[x]);
      Unnamed(f.names, f.owner, x, b);
      IndirectAlone(f, i, x);
      ViaOne(f.disk, f.names[x], f.contents[x], a, b, k, x == i);
    }
  }

  lemma ViaOne(disk: seq<Block>, slots: seq<nat>, c: seq<Byte>, a: nat, b: nat, k: nat, own: bool)
    requires Indirect(disk, slots, 0) && Holds(disk, slots, c) && 0 < a < |disk| && 0 < b < |disk| && a != b
      && |disk[a]| == BSIZE
    requires forall k | 0 <= k < SLOTS :: slots[k] != b
    requires forall k | 0 <= k < SLOTS && (!own || k != NDIRECT) :: slots[k] != a
    requires NDIRECT < k < SLOTS && b < U32 && (own ==> slots[NDIRECT] == a && slots[k] == 0)
    ensures var disk', slots' := disk[b := Zeros()][a := PutWord(disk[a], k - NDIRECT - 1, b)],
      if own then slots[k := b] else slots;
      Indirect(disk', slots', 0) && Holds(disk', slots', c)
  {
    var x := PutWord(disk[a], k - NDIRECT - 1, b);
    var disk1 := disk[b := Zeros()];
    HoldsElsewhere(disk, slots, c, b, Zeros());
    IndirectElsewhere(disk, slots, 0, b, Zeros());
    HoldsElsewhere(disk1, slots, c, a, x);
    if own {
      PutIndirect(disk1, slots, k, b);
      HoldsMore(disk1[a := x], slots, c, k, b);
    } else {
      IndirectElsewhere(disk1, slots, 0, a, x);
    }
  }

  // ---- writing into a block

  /** c with the bytes d from offset off on, longer if they reach past its end. */
  function Overwrite(c: seq<Byte>, off: nat, d: seq<Byte>): (r: seq<Byte>)
    requires off <= |c|
    ensures |r| == if off + |d| < |c| then |c| else off + |d|
  {
    c[..off] + d + if off + |d| < |c| then c[off + |d|..] else []
  }

  lemma OverwriteAt(c: seq<Byte>, off: nat, d: seq<Byte>, o: nat)
    requires off <= |c| && o < |Overwrite(c, off, d)|
    ensures Overwrite(c, off, d)[o] == if off <= o < off + |d| then d[o - off] else c[o]
  {
  }

  lemma OverwriteAgain(c: seq<Byte>, off: nat, d: seq<Byte>, e: seq<Byte>)
    requires off <= |c|
    ensures Overwrite(Overwrite(c, off, d), off + |d|, e) == Overwrite(c, off, d + e)
  {
  }

  /** Bytes d go to offset off, within one block. */
  function Stored(f: Fs, i: nat, off: nat, d: seq<Byte>): Fs
    requires i < |f.names| && SlotAt(off) < |f.names[i]| && f.names[i][SlotAt(off)] < |f.disk|
    requires off % BSIZE + |d| <= |f.disk[f.names[i][SlotAt(off)]]|
  {
    var b := f.names[i][SlotAt(off)];
    f.(disk := f.disk[b := Overwrite(f.disk[b], off % BSIZE, d)])
  }

  lemma SameBlock(off: nat, n: nat, o: nat)
    requires off % BSIZE + n <= BSIZE && off <= o < off + n
    ensures o / BSIZE == off / BSIZE && o % BSIZE == off % BSIZE + o - off
  {
    assert off == off / BSIZE * BSIZE + off % BSIZE;
  }

  lemma OtherPlace(off: nat, n: nat, o: nat)
    requires off % BSIZE + n <= BSIZE && !(off <= o < off + n)
    ensures o / BSIZE != off / BSIZE || o % BSIZE < off % BSIZE || o % BSIZE >= off % BSIZE + n
  {
    if o / BSIZE == off / BSIZE {
      assert off == off / BSIZE * BSIZE + off % BSIZE && o == off / BSIZE * BSIZE + o % BSIZE;
    }
  }

  /** The blocks of the inode then hold the overwritten bytes. */
  lemma StoredHolds(disk: seq<Block>, slots: seq<nat>, c: seq<Byte>, off: nat, d: seq<Byte>)
    requires Holds(disk, slots, c) && off <= |c| && off + |d| <= MAXFILE * BSIZE && off % BSIZE + |d| <= BSIZE
      && |slots| == SLOTS
    requires SlotAt(off) < SLOTS && slots[SlotAt(off)] != 0 && slots[SlotAt(off)] < |disk|
      && |disk[slots[SlotAt(off)]]| == BSIZE
    requires forall k | 0 <= k < SLOTS && k != SlotAt(off) :: slots[k] != slots[SlotAt(off)]
    ensures var b := slots[SlotAt(off)]; Holds(disk[b := Overwrite(disk[b], off % BSIZE, d)], slots,
      Overwrite(c, off, d))
  {
    var b := slots[SlotAt(off)];
    var disk', r := disk[b := Overwrite(disk[b], off % BSIZE, d)], Overwrite(c, off, d);
    forall o | 0 <= o < |r| ensures Reads(disk', slots, o, r[o]) {
      OverwriteAt(c, off, d, o);
      OverwriteAt(disk[b], off % BSIZE, d, o % BSIZE);
      if off <= o < off + |d| {
        SameBlock(off, |d|, o);
      } else {
        OtherPlace(off, |d|, o);
        assert r[o] == c[o] && Reads(disk, slots, o, c[o]);
        SlotAtMeans(o);
      }
    }
  }

  /** Storing changes the bytes of inode i only, and the bytes past its end not at all. */
  lemma StoredSound(f: Fs, i: nat, off: nat, d: seq<Byte>)
    requires Sound(f) && i < |f.names| && off <= |f.contents[i]| && off + |d| <= MAXFILE * BSIZE
      && off % BSIZE + |d| <= BSIZE
    requires off < MAXFILE * BSIZE && f.names[i][SlotAt(off)] != 0
    ensures SlotAt(off) < SLOTS && f.names[i][SlotAt(off)] < |f.disk|
    ensures Base(Stored(f, i, off, d)) && IndirectAll(f.names, Stored(f, i, off, d).disk)
    ensures HoldsAll(f.names, Stored(f, i, off, d).disk, f.contents[i := Overwrite(f.contents[i], off, d)])
  {
    SlotAtMeans(off);
    var s := SlotAt(off);
    var b := f.names[i][s];
    assert f.owner[b] == (i, s);
    var x := Overwrite(f.disk[b], off % BSIZE, d);
    var disk' := f.disk[b := x];
    var contents' := f.contents[i := Overwrite(f.contents[i], off, d)];
    forall y | 0 <= y < |f.names| ensures Indirect(disk', f.names[y], 0) && Holds(disk', f.names[y], contents'[y]) {
      assert Indirect(f.disk, f.names[y], 0) && Holds(f.disk, f.names[y], f.contents[y]);
      IndirectElsewhere(f.disk, f.names[y], 0, b, x);
      if y == i {
        StoredHolds(f.disk, f.names[i], f.contents[i], off, d);
      } else {
        HoldsElsewhere(f.disk, f.names[y], f.contents[y], b, x);
      }
    }
  }

  // ---- taking a block back

  function Released(f: Fs, i: nat, k: nat): Fs
    requires i < |f.names| && k < |f.names[i]| && f.names[i][k] < |f.used|
  {
    f.(names := f.names[i := With(f.names[i], k, 0)], used := f.used[f.names[i][k] := false], owner :=
      f.owner - {f.names[i][k]})
  }

  lemma ReleasedBase(f: Fs, i: nat, k: nat)
    requires Base(f) && IsSlot(f.names, i, k) && f.names[i][k] != 0
    ensures f.start <= f.names[i][k] < |f.used| && f.used[f.names[i][k]]
    ensures Base(Released(f, i, k))
  {
    var b := f.names[i][k];
    assert f.owner[b] == (i, k);
    var t := Released(f, i, k);
    forall x | x in t.owner
      ensures IsSlot(t.names, t.owner[x].0, t.owner[x].1) && t.names[t.owner[x].0][t.owner[x].1] == x
    {
      assert t.owner[x] == f.owner[x] && IsSlot(f.names, f.owner[x].0, f.owner[x].1);
    }
    forall y, z | 0 <= y < |t.names| && 0 <= z < |t.names[y]| && t.names[y][z] != 0
      ensures t.names[y][z] in t.owner && t.owner[t.names[y][z]] == (y, z)
    {
      assert t.names[y][z] == f.names[y][z];
    }
  }
}
