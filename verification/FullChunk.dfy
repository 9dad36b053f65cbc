/** The budget of a transaction is met exactly: a file system in which one chunk of filewrite logs
    MAXOPBLOCKS blocks. It has 12289 blocks, so four bitmap blocks, and one block is free in each
    part of the disk they describe. File 0 ends inside its last direct block; a chunk appended to
    it needs its indirect block and three data blocks. */
module FullChunk {
  import opened Blocks
  import opened Inodes
  import opened Growth
  import opened Writing
  import LogMachine
  import Fs

  const OFF: nat := 5121   // inside file block 10

  /** 30 log blocks behind the super block, inode blocks from 32, bitmap blocks from 4091. */
  function Disk(): (sb: Super)
    ensures sb.Ok() && sb.HasInodes(12289)
  {
    Super(12289, 4095, 32, 4091)
  }

  /** A file of one block, whose inode has that block's number. */
  predicate Single(j: nat) {
    4107 <= j < 12288 && j != 8191 && j != 8192
  }

  function FileInode(j: nat): Inode {
    if j == 0 then Inode(OFF, [4096, 4097, 4098, 4099, 4100, 4101, 4102, 4103, 4104, 4105, 4106, 0])
    else if Single(j) then Inode(BSIZE, [j, 0, 0, 0, 0, 0, 0, 0, 0, 0, 0, 0])
    else Inode(0, [0, 0, 0, 0, 0, 0, 0, 0, 0, 0, 0, 0])
  }

  function Files(): seq<Inode> {
    seq(12289, j requires 0 <= j => FileInode(j))
  }

  ghost function Owners(): map<nat, Slot> {
    map b: nat | b < 12289 && (4096 <= b <= 4106 || Single(b)) :: if b <= 4106 then Slot(0, b - 4096) else Slot(b, 0)
  }

  // ---- its blocks ----

  function Ones(): Block {
    seq(BSIZE, i => 255)
  }

  lemma OneBits(k: nat)
    requires k < 8
    ensures ByteBit(255, k)
  {
    assert 255 / 2 == 127 && 127 / 2 == 63 && 63 / 2 == 31 && 31 / 2 == 15 && 15 / 2 == 7 && 7 / 2 == 3 && 3 / 2 == 1;
    if k <= 3 {
      assert ByteBit(255, k) == if k == 0 then true else ByteBit(127, k - 1);
      assert k >= 1 ==> ByteBit(127, k - 1) == if k == 1 then true else ByteBit(63, k - 2);
      assert k >= 2 ==> ByteBit(63, k - 2) == if k == 2 then true else ByteBit(31, k - 3);
    } else {
      assert ByteBit(255, k) == ByteBit(127, k - 1) == ByteBit(63, k - 2) == ByteBit(31, k - 3) == ByteBit(15, k - 4);
      assert k >= 5 ==> ByteBit(15, k - 4) == ByteBit(7, k - 5);
      assert k >= 6 ==> ByteBit(7, k - 5) == ByteBit(3, k - 6);
      assert k >= 7 ==> ByteBit(3, k - 6) == ByteBit(1, k - 7);
    }
  }

  /** All bits set but one. */
  function AllBut(bit: nat): (b: Block)
    requires bit < BPB
  {
    PutBit(Ones(), bit, false)
  }

  lemma AllButBits(bit: nat)
    requires bit < BPB
    ensures forall j: nat :: j < BPB ==> GetBit(AllBut(bit), j) == (j != bit)
  {
    forall j: nat | j < BPB
      ensures GetBit(Ones(), j)
    {
      OneBits(j % 8);
    }
  }

  ghost predicate HasInode(b: Block, first: nat, m: nat) {
    m < IPB && GetInode(b, m) == FileInode(first + m)
  }

  lemma OneMore(first: nat, s: nat, b: Block, r: Block)
    requires 0 < s <= IPB && r == PutInode(b, s - 1, FileInode(first + s - 1)) && forall m: nat :: m < s - 1 ==> HasInode(b, first, m)
    ensures forall m: nat :: m < s ==> HasInode(r, first, m)
  {
    forall m: nat | m < s
      ensures HasInode(r, first, m)
    {
      PutOne(b, s - 1, FileInode(first + s - 1), r, m);
      assert m < s - 1 ==> HasInode(b, first, m);
    }
  }

  lemma PutOne(b: Block, s: nat, ino: Inode, r: Block, m: nat)
    requires s < IPB && m < IPB && r == PutInode(b, s, ino)
    ensures GetInode(r, m) == if m == s then ino else GetInode(b, m)
  {
    StoredInode(b, s, ino);
  }

  /** A block with the s inodes from number first on. */
  function Packed(first: nat, s: nat): (r: Block)
    requires s <= IPB
    ensures forall m: nat :: m < s ==> HasInode(r, first, m)
  {
    if s == 0 then ZeroBlock() else
    var b := Packed(first, s - 1);
    var r := PutInode(b, s - 1, FileInode(first + s - 1));
    OneMore(first, s, b, r);
    r
  }

  function BlockAt(c: nat): Block {
    if 32 <= c < 4091 then Packed(IPB * (c - 32), IPB)
    else if c == 4091 || c == 4092 then AllBut(4095)
    else if c == 4093 || c == 4094 then AllBut(0)
    else ZeroBlock()
  }

  function View(): (v: seq<Block>)
    ensures |v| == 12289
  {
    seq(12289, c requires 0 <= c => BlockAt(c))
  }

  predicate IsFree(b: nat) {
    b == 4095 || b == 8191 || b == 8192 || b == 12288
  }

  lemma BitsOfDisk(b: nat)
    requires b < 12289
    ensures InUse(Disk(), View(), b) == !IsFree(b)
  {
    AllButBits(4095);
    AllButBits(0);
    var q, r := b / BPB, b % BPB;
    assert b == BPB * q + r && q <= 3;
    assert View()[4091 + q] == BlockAt(4091 + q);
  }

  lemma RefsOfDisk(j: nat, k: nat)
    requires j < 12289
    ensures Ref(View(), Files()[j], k) ==
              if j == 0 && k < NDIRECT then 4096 + k else if k == 0 && Single(j) then j else 0
  {
  }

  lemma DiskOwned()
    ensures Owned(Disk(), View(), Files(), Owners())
  {
    var sb, view, inodes, owner := Disk(), View(), Files(), Owners();
    forall b: nat | b < sb.size
      ensures InUse(sb, view, b) <==> b < sb.nmeta || b in owner
    {
      BitsOfDisk(b);
    }
    forall i, k: nat | 0 <= i < |inodes| && k < NSLOTS && Ref(view, inodes[i], k) != 0
      ensures Ref(view, inodes[i], k) in owner && owner[Ref(view, inodes[i], k)] == Slot(i, k)
    {
      RefsOfDisk(i, k);
    }
    forall b | b in owner
      ensures Ref(view, inodes[owner[b].inum], owner[b].k) == b
    {
      RefsOfDisk(owner[b].inum, owner[b].k);
    }
  }

  lemma DiskConsistent()
    ensures Consistent(Disk(), View(), Files(), Owners())
  {
    var sb, view, inodes := Disk(), View(), Files();
    DiskOwned();
    forall j: nat | j < |inodes|
      ensures StoredAt(sb, view, inodes, j)
    {
      assert HasInode(Packed(IPB * (j / IPB), IPB), IPB * (j / IPB), j % IPB);
      assert IPB * (j / IPB) + j % IPB == j;
      assert view[sb.IBlock(j)] == Packed(IPB * (j / IPB), IPB);
    }
    forall j, bn: nat | 0 <= j < |inodes| && bn * BSIZE < inodes[j].size
      ensures Ref(view, inodes[j], DataSlot(bn)) != 0
    {
      RefsOfDisk(j, DataSlot(bn));
    }
  }

  // ---- what the chunk needs and logs ----

  lemma FreeOfDisk()
    ensures Free(Disk(), View()) == {4095, 8191, 8192, 12288}
  {
    forall b: nat | b < 12289
      ensures InUse(Disk(), View(), b) == !IsFree(b)
    {
      BitsOfDisk(b);
    }
  }

  lemma NeedOfChunk()
    ensures Need(View(), Files()[0], OFF, CHUNK) == {11, 12, 13, 14}
    ensures Span(OFF, CHUNK) == {10, 12, 13, 14}
  {
    assert OFF / BSIZE == 10 && SpanEnd(OFF, CHUNK) == 14;
    forall k: nat | k < NSLOTS
      ensures Needs(View(), Files()[0], OFF, CHUNK, k) <==> k in {11, 12, 13, 14}
      ensures InSpan(k, OFF, CHUNK) <==> k in {10, 12, 13, 14}
    {
      RefsOfDisk(0, k);
    }
  }

  lemma SameSize(a: set<nat>, b: set<nat>)
    requires a <= b && |a| == |b|
    ensures a == b
  {
    assert b == a + (b - a);
    assert |b| == |a| + |b - a|;
  }

  ghost function FreeBlocks(): set<nat> {
    {4095, 8191, 8192, 12288}
  }

  ghost function NewSlots(): set<nat> {
    {11, 12, 13, 14}
  }

  /** Four new blocks, their bitmap blocks, the block the file ended in, and the inode block. */
  ghost function Logged(): set<nat> {
    {4095, 8191, 8192, 12288, 4091, 4092, 4093, 4094, 4106, 32}
  }

  /** What the disk above has to offer. */
  ghost predicate Prepared(sb: Super, view: seq<Block>, inodes: seq<Inode>, owner: map<nat, Slot>) {
    && sb == Disk() && Consistent(sb, view, inodes, owner) && |inodes| == 12289
    && Need(view, inodes[0], OFF, CHUNK) == NewSlots() && Span(OFF, CHUNK) == {10, 12, 13, 14}
    && Free(sb, view) == FreeBlocks() && Ref(view, inodes[0], 10) == 4106 && inodes[0].size == OFF
  }

  lemma DiskPrepared()
    ensures Prepared(Disk(), View(), Files(), Owners())
  {
    DiskConsistent();
    NeedOfChunk();
    FreeOfDisk();
    RefsOfDisk(0, 10);
  }

  lemma FourEach()
    ensures |NewSlots()| == |FreeBlocks()| == 4
  {
  }

  /** As many slots as free blocks: all of them are taken. */
  lemma AllTaken(sb: Super, view0: seq<Block>, inodes0: seq<Inode>, owner0: map<nat, Slot>, view: seq<Block>, inodes: seq<Inode>, owner: map<nat, Slot>,
                 i: nat, got: set<nat>, free: set<nat>)
    requires Owned(sb, view0, inodes0, owner0) && Free(sb, view0) == free && Owned(sb, view, inodes, owner)
    requires Allocates(view0, inodes0, owner0, view, inodes, owner, i, got) && |got| == |free|
    ensures NewBlocks(view, inodes[i], got) == free
  {
    Conservation(sb, view0, inodes0, owner0, view, inodes, owner, i, got);
    SameSize(NewBlocks(view, inodes[i], got), free);
  }

  lemma LogOfChunk(sb: Super, view0: seq<Block>, inodes0: seq<Inode>, owner0: map<nat, Slot>, view: seq<Block>, inodes: seq<Inode>, owner: map<nat, Slot>)
    requires Prepared(sb, view0, inodes0, owner0) && Owned(sb, view, inodes, owner)
    requires Allocates(view0, inodes0, owner0, view, inodes, owner, 0, NewSlots())
    ensures WriteLog(sb, view0, inodes0[0], view, inodes[0], 0, OFF, CHUNK) == Logged()
  {
    var ino, got := inodes[0], NewSlots();
    FourEach();
    AllTaken(sb, view0, inodes0, owner0, view, inodes, owner, 0, got, FreeBlocks());
    StillThere(view0, inodes0, owner0, view, inodes, owner);
    BitmapsOf(sb, view, ino, got);
    DataOf(view, ino, got);
    EntryOf(view, ino, got);
    Altogether(NewBlocks(view, ino, got), Bitmaps(sb, view, ino, got), EntryLog(ino, got), DataLog(view, ino, OFF, CHUNK), {sb.IBlock(0)});
  }

  lemma StillThere(view0: seq<Block>, inodes0: seq<Inode>, owner0: map<nat, Slot>, view: seq<Block>, inodes: seq<Inode>, owner: map<nat, Slot>)
    requires |inodes| == |inodes0| > 0 && Allocates(view0, inodes0, owner0, view, inodes, owner, 0, NewSlots())
    ensures Ref(view, inodes[0], 10) == Ref(view0, inodes0[0], 10)
  {
  }

  lemma Altogether(a: set<nat>, b: set<nat>, c: set<nat>, d: set<nat>, e: set<nat>)
    requires a == FreeBlocks() && b == {4091, 4092, 4093, 4094} && c <= a && 4106 in d && d <= a + {4106} && e == {32}
    ensures a + b + c + d + e == Logged()
  {
  }

  lemma TenLogged()
    ensures |Logged()| == LogMachine.MAXOPBLOCKS
  {
  }

  /** Four free blocks are enough. */
  lemma Enough(sb: Super, view: seq<Block>, inodes: seq<Inode>, owner: map<nat, Slot>)
    requires Prepared(sb, view, inodes, owner)
    ensures !TooFew(sb, view, inodes, 0, OFF, CHUNK)
  {
    FourEach();
  }

  lemma EntryOf(view: seq<Block>, ino: Inode, got: set<nat>)
    requires got == NewSlots()
    ensures EntryLog(ino, got) <= NewBlocks(view, ino, got)
  {
    assert Ref(view, ino, 11) == ino.addrs[11];
  }

  lemma BitmapsOf(sb: Super, view: seq<Block>, ino: Inode, got: set<nat>)
    requires sb == Disk() && NewBlocks(view, ino, got) == FreeBlocks()
    ensures Bitmaps(sb, view, ino, got) == {4091, 4092, 4093, 4094}
  {
    forall b | b in FreeBlocks()
      ensures sb.BBlock(b) in Bitmaps(sb, view, ino, got)
    {
      var k :| k in got && Ref(view, ino, k) == b;
    }
    assert sb.BBlock(4095) == 4091 && sb.BBlock(8191) == 4092 && sb.BBlock(8192) == 4093 && sb.BBlock(12288) == 4094;
    forall c | c in Bitmaps(sb, view, ino, got)
      ensures c in {4091, 4092, 4093, 4094}
    {
      var k :| k in got && c == sb.BBlock(Ref(view, ino, k));
      assert Ref(view, ino, k) as nat in NewBlocks(view, ino, got);
    }
  }

  lemma DataOf(view: seq<Block>, ino: Inode, got: set<nat>)
    requires got == NewSlots() && Ref(view, ino, 10) == 4106 && Span(OFF, CHUNK) == {10, 12, 13, 14}
    ensures 4106 in DataLog(view, ino, OFF, CHUNK) && DataLog(view, ino, OFF, CHUNK) <= NewBlocks(view, ino, got) + {4106}
  {
    assert 10 in Span(OFF, CHUNK);
    forall c | c in DataLog(view, ino, OFF, CHUNK)
      ensures c in NewBlocks(view, ino, got) + {4106}
    {
      var k :| k in Span(OFF, CHUNK) && c == Ref(view, ino, k);
    }
  }

  /** The chunk is written, and logs exactly MAXOPBLOCKS blocks. */
  method WriteFullChunk(src: seq<Byte>) returns (fs: Fs.FileSystem, w: WriteResult)
    requires |src| == CHUNK
    ensures w == Wrote && fs.Valid() && |fs.logged| == LogMachine.MAXOPBLOCKS
    ensures fs.base == View() && Consistent(fs.sb, View(), Files(), Owners())
  {
    DiskPrepared();
    fs := new Fs.FileSystem(Disk(), View(), Files(), Owners());
    w := AppendChunk(fs, src);
  }

  method AppendChunk(fs: Fs.FileSystem, src: seq<Byte>) returns (w: WriteResult)
    requires |src| == CHUNK && fs.Valid() && Prepared(fs.sb, fs.view, fs.inodes, fs.owner)
    modifies fs
    ensures w == Wrote && fs.Valid() && fs.base == old(fs.view)
    ensures fs.logged == Logged() && |fs.logged| == LogMachine.MAXOPBLOCKS
  {
    ghost var view, inodes, owner := fs.view, fs.inodes, fs.owner;
    Enough(fs.sb, view, inodes, owner);
    w := fs.WriteChunk(0, src, OFF);
    TenLogged();
    LogOfChunk(fs.sb, view, inodes, owner, fs.view, fs.inodes, fs.owner);
  }
}
