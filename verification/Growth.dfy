/** What a write adds to a file: the slots of its inode that get a block, the blocks that are
    taken from the free map for them, and the blocks that have to be logged. */
module Growth {
  import opened Blocks
  import opened Inodes

  /** Nothing but the addresses of inode i may differ. */
  ghost predicate OnlyAddrs(inodes: seq<Inode>, inodes': seq<Inode>, i: nat) {
    && |inodes'| == |inodes|
    && (forall j :: 0 <= j < |inodes| && j != i ==> inodes'[j] == inodes[j])
    && (forall j :: 0 <= j < |inodes| ==> inodes'[j].size == inodes[j].size)
  }

  /** Exactly the slots got of inode i have gone from empty to filled. */
  ghost predicate RefsFilled(view0: seq<Block>, inodes0: seq<Inode>, view: seq<Block>, inodes: seq<Inode>, i: nat, got: set<nat>) {
    && |inodes| == |inodes0| && i < |inodes|
    && (forall j, m: nat {:trigger Ref(view, inodes[j], m)} {:trigger Ref(view0, inodes0[j], m)} ::
          0 <= j < |inodes| && m < NSLOTS && !(j == i && m in got) ==> Ref(view, inodes[j], m) == Ref(view0, inodes0[j], m))
    && (forall m :: m in got ==> m < NSLOTS && Ref(view0, inodes0[i], m) == 0 && Ref(view, inodes[i], m) != 0)
  }

  /** Owners stay; the new ones are those slots. */
  ghost predicate OwnersGrow(owner0: map<nat, Slot>, owner: map<nat, Slot>, i: nat, got: set<nat>) {
    && (forall b :: b in owner0 ==> b in owner && owner[b] == owner0[b])
    && (forall b :: b in owner && b !in owner0 ==> owner[b].inum == i && owner[b].k in got)
  }

  /** Exactly the slots got of inode i have been given blocks. */
  ghost predicate Allocates(view0: seq<Block>, inodes0: seq<Inode>, owner0: map<nat, Slot>,
                            view: seq<Block>, inodes: seq<Inode>, owner: map<nat, Slot>, i: nat, got: set<nat>)
  {
    RefsFilled(view0, inodes0, view, inodes, i, got) && OwnersGrow(owner0, owner, i, got)
  }

  ghost predicate GrownBy(sb: Super, view0: seq<Block>, inodes0: seq<Inode>, owner0: map<nat, Slot>,
                          view: seq<Block>, inodes: seq<Inode>, owner: map<nat, Slot>, i: nat, got: set<nat>)
  {
    && OnlyAddrs(inodes0, inodes, i) && SameInodes(sb, view0, view)
    && Allocates(view0, inodes0, owner0, view, inodes, owner, i, got)
  }

  lemma GrownNothing(sb: Super, view: seq<Block>, inodes: seq<Inode>, owner: map<nat, Slot>, i: nat)
    requires i < |inodes|
    ensures GrownBy(sb, view, inodes, owner, view, inodes, owner, i, {})
  {
  }

  lemma GrownChain(sb: Super, v0: seq<Block>, i0: seq<Inode>, o0: map<nat, Slot>, v1: seq<Block>, i1: seq<Inode>, o1: map<nat, Slot>,
                   v2: seq<Block>, i2: seq<Inode>, o2: map<nat, Slot>, i: nat, g1: set<nat>, g2: set<nat>)
    requires GrownBy(sb, v0, i0, o0, v1, i1, o1, i, g1) && GrownBy(sb, v1, i1, o1, v2, i2, o2, i, g2)
    ensures GrownBy(sb, v0, i0, o0, v2, i2, o2, i, g1 + g2)
    ensures forall k :: k in g1 ==> Ref(v2, i2[i], k) == Ref(v1, i1[i], k)
  {
    RefsChain(v0, i0, v1, i1, v2, i2, i, g1, g2);
    OwnersChain(o0, o1, o2, i, g1, g2);
  }

  lemma RefsChain(v0: seq<Block>, i0: seq<Inode>, v1: seq<Block>, i1: seq<Inode>, v2: seq<Block>, i2: seq<Inode>, i: nat, g1: set<nat>, g2: set<nat>)
    requires RefsFilled(v0, i0, v1, i1, i, g1) && RefsFilled(v1, i1, v2, i2, i, g2)
    ensures RefsFilled(v0, i0, v2, i2, i, g1 + g2)
    ensures forall k :: k in g1 ==> Ref(v2, i2[i], k) == Ref(v1, i1[i], k)
  {
    forall k | k in g1
      ensures k !in g2 && k < NSLOTS && Ref(v2, i2[i], k) == Ref(v1, i1[i], k)
    {
      assert Ref(v1, i1[i], k) != 0;
    }
    forall k | k in g2
      ensures k !in g1 && k < NSLOTS && Ref(v0, i0[i], k) == 0
    {
      assert Ref(v1, i1[i], k) == 0;
    }
    forall j, m: nat | 0 <= j < |i0| && m < NSLOTS && !(j == i && m in g1 + g2)
      ensures Ref(v2, i2[j], m) == Ref(v0, i0[j], m)
    {
      assert Ref(v1, i1[j], m) == Ref(v0, i0[j], m);
    }
  }

  lemma OwnersChain(o0: map<nat, Slot>, o1: map<nat, Slot>, o2: map<nat, Slot>, i: nat, g1: set<nat>, g2: set<nat>)
    requires OwnersGrow(o0, o1, i, g1) && OwnersGrow(o1, o2, i, g2)
    ensures OwnersGrow(o0, o2, i, g1 + g2)
  {
    forall b | b in o2 && b !in o0
      ensures o2[b].inum == i && o2[b].k in g1 + g2
    {
      if b in o1 {
        assert o2[b] == o1[b];
      }
    }
    forall b | b in o0
      ensures b in o2 && o2[b] == o0[b]
    {
      assert b in o1;
    }
  }

  /** Storing into a data block fills nothing. */
  lemma GrownStore(sb: Super, view: seq<Block>, inodes: seq<Inode>, owner: map<nat, Slot>, i: nat, b: nat, data: Block)
    requires sb.Ok() && |view| == sb.size && i < |inodes| && sb.nmeta <= b < sb.size
    requires forall j, k: nat :: 0 <= j < |inodes| ==> Ref(view[b := data], inodes[j], k) == Ref(view, inodes[j], k)
    ensures GrownBy(sb, view, inodes, owner, view[b := data], inodes, owner, i, {})
  {
  }

  // ---- which slots a write needs ----

  /** The file block that a slot is for. */
  function Position(k: nat): nat {
    if k < NDIRECT || k == 0 then k else k - 1
  }

  function SpanEnd(off: nat, n: nat): nat {
    if n == 0 then off / BSIZE else (off + n - 1) / BSIZE + 1
  }

  /** Slot k is for a block that n bytes at off touch. */
  predicate InSpan(k: nat, off: nat, n: nat) {
    k < NSLOTS && k != NDIRECT && off / BSIZE <= Position(k) < SpanEnd(off, n)
  }

  ghost function Span(off: nat, n: nat): set<nat> {
    set k: nat | k < NSLOTS && InSpan(k, off, n)
  }

  /** An empty slot of the span, or the indirect block that one of them needs. */
  predicate Needs(view: seq<Block>, ino: Inode, off: nat, n: nat, k: nat) {
    if k == NDIRECT then ino.addrs[NDIRECT] == 0 && n > 0 && SpanEnd(off, n) > NDIRECT
    else InSpan(k, off, n) && Ref(view, ino, k) == 0
  }

  ghost function Need(view: seq<Block>, ino: Inode, off: nat, n: nat): set<nat> {
    set k: nat | k < NSLOTS && Needs(view, ino, off, n, k)
  }

  /** What bmap needs for one block. */
  function MapNeed(view: seq<Block>, ino: Inode, bn: nat): set<nat> {
    if Ref(view, ino, DataSlot(bn)) != 0 then {}
    else if bn >= NDIRECT && ino.addrs[NDIRECT] == 0 then {DataSlot(bn), NDIRECT}
    else {DataSlot(bn)}
  }

  lemma SpanGrows(off: nat, tot: nat, m: nat, bn: nat)
    requires tot == 0 || (off + tot) % BSIZE == 0
    requires 0 < m && (off + tot) % BSIZE + m <= BSIZE && bn == (off + tot) / BSIZE < MAXFILE
    ensures SpanEnd(off, tot) == bn && SpanEnd(off, tot + m) == bn + 1
    ensures forall k: nat :: InSpan(k, off, tot + m) <==> InSpan(k, off, tot) || k == DataSlot(bn)
    ensures !InSpan(DataSlot(bn), off, tot) && off / BSIZE <= bn
  {
    assert (off + tot + m - 1) / BSIZE == bn;
    if tot > 0 {
      assert (off + tot - 1) / BSIZE == bn - 1;
    }
    forall k: nat
      ensures InSpan(k, off, tot + m) <==> InSpan(k, off, tot) || k == DataSlot(bn)
    {
    }
  }

  /** The slots needed so far and those of the next block. */
  lemma NeedGrows(view0: seq<Block>, ino0: Inode, view: seq<Block>, ino: Inode, off: nat, tot: nat, m: nat, bn: nat)
    requires tot == 0 || (off + tot) % BSIZE == 0
    requires 0 < m && (off + tot) % BSIZE + m <= BSIZE && bn == (off + tot) / BSIZE < MAXFILE
    requires forall k: nat :: k < NSLOTS && k !in Need(view0, ino0, off, tot) ==> Ref(view, ino, k) == Ref(view0, ino0, k)
    requires forall k :: k in Need(view0, ino0, off, tot) ==> Ref(view, ino, k) != 0
    ensures Need(view0, ino0, off, tot + m) == Need(view0, ino0, off, tot) + MapNeed(view, ino, bn)
  {
    SpanGrows(off, tot, m, bn);
    var need, more := Need(view0, ino0, off, tot), MapNeed(view, ino, bn);
    assert Ref(view, ino, NDIRECT) == ino.addrs[NDIRECT] && Ref(view0, ino0, NDIRECT) == ino0.addrs[NDIRECT];
    assert DataSlot(bn) !in need && Ref(view, ino, DataSlot(bn)) == Ref(view0, ino0, DataSlot(bn));
    forall k: nat | k < NSLOTS
      ensures Needs(view0, ino0, off, tot + m, k) <==> k in need || k in more
    {
      if k == NDIRECT {
        NeedIndirect(view0, ino0, view, ino, off, tot, m, bn);
      }
    }
  }

  lemma NeedIndirect(view0: seq<Block>, ino0: Inode, view: seq<Block>, ino: Inode, off: nat, tot: nat, m: nat, bn: nat)
    requires SpanEnd(off, tot) == bn && SpanEnd(off, tot + m) == bn + 1 && 0 < m && off / BSIZE <= bn < MAXFILE
    requires tot == 0 ==> bn == off / BSIZE
    requires NDIRECT !in Need(view0, ino0, off, tot) ==> ino.addrs[NDIRECT] == ino0.addrs[NDIRECT]
    requires NDIRECT in Need(view0, ino0, off, tot) ==> ino.addrs[NDIRECT] != 0
    requires Ref(view, ino, DataSlot(bn)) == Ref(view0, ino0, DataSlot(bn))
    ensures Needs(view0, ino0, off, tot + m, NDIRECT) <==> NDIRECT in Need(view0, ino0, off, tot) || NDIRECT in MapNeed(view, ino, bn)
  {
    if ino0.addrs[NDIRECT] == 0 && bn >= NDIRECT {
      assert Ref(view0, ino0, DataSlot(bn)) == 0;
    }
  }

  // ---- which blocks are logged ----

  ghost function NewBlocks(view: seq<Block>, ino: Inode, got: set<nat>): set<nat> {
    set k | k in got :: Ref(view, ino, k) as nat
  }

  ghost function Bitmaps(sb: Super, view: seq<Block>, ino: Inode, got: set<nat>): set<nat> {
    set k | k in got :: sb.BBlock(Ref(view, ino, k))
  }

  /** The indirect block, if an entry was put into it. */
  ghost function EntryLog(ino: Inode, got: set<nat>): set<nat> {
    if exists k :: k in got && k > NDIRECT then {ino.addrs[NDIRECT] as nat} else {}
  }

  /** What bmap logs: the new blocks, their bitmap blocks, and the changed indirect block. */
  ghost function MapLog(sb: Super, view: seq<Block>, ino: Inode, got: set<nat>): set<nat> {
    NewBlocks(view, ino, got) + Bitmaps(sb, view, ino, got) + EntryLog(ino, got)
  }

  /** The data blocks that n bytes at off touch. */
  ghost function DataLog(view: seq<Block>, ino: Inode, off: nat, n: nat): set<nat> {
    set k | k in Span(off, n) :: Ref(view, ino, k) as nat
  }

  /** Everything a write of n bytes at off logs: with the inode block if the file grows. */
  ghost function WriteLog(sb: Super, view0: seq<Block>, ino0: Inode, view: seq<Block>, ino: Inode, i: nat, off: nat, n: nat): set<nat> {
    MapLog(sb, view, ino, Need(view0, ino0, off, n)) + DataLog(view, ino, off, n)
    + if n > 0 && off + n > ino0.size then {sb.IBlock(i)} else {}
  }

  lemma MapLogOne(sb: Super, view: seq<Block>, ino: Inode, k: nat, b: nat)
    requires b == Ref(view, ino, k)
    ensures MapLog(sb, view, ino, {k}) == {b, sb.BBlock(b)} + if k > NDIRECT then {ino.addrs[NDIRECT] as nat} else {}
  {
    assert NewBlocks(view, ino, {k}) == {b};
    assert Bitmaps(sb, view, ino, {k}) == {sb.BBlock(b)};
    assert k in {k};
  }

  lemma MapLogNone(sb: Super, view: seq<Block>, ino: Inode)
    ensures MapLog(sb, view, ino, {}) == {}
  {
  }

  lemma MapLogChain(sb: Super, v1: seq<Block>, ino1: Inode, v2: seq<Block>, ino2: Inode, g1: set<nat>, g2: set<nat>)
    requires forall k :: k in g1 ==> Ref(v2, ino2, k) == Ref(v1, ino1, k)
    requires ino1.addrs[NDIRECT] != 0 ==> ino2.addrs[NDIRECT] == ino1.addrs[NDIRECT]
    requires forall k :: k in g1 && k > NDIRECT ==> ino1.addrs[NDIRECT] != 0
    ensures MapLog(sb, v2, ino2, g1 + g2) == MapLog(sb, v1, ino1, g1) + MapLog(sb, v2, ino2, g2)
  {
    assert NewBlocks(v2, ino2, g1 + g2) == NewBlocks(v1, ino1, g1) + NewBlocks(v2, ino2, g2);
    assert Bitmaps(sb, v2, ino2, g1 + g2) == Bitmaps(sb, v1, ino1, g1) + Bitmaps(sb, v2, ino2, g2);
    EntryChain(ino1, ino2, g1, g2);
  }

  lemma MapLogSame(sb: Super, view: seq<Block>, view': seq<Block>, ino: Inode, got: set<nat>)
    requires forall k :: k in got ==> Ref(view', ino, k) == Ref(view, ino, k)
    ensures MapLog(sb, view', ino, got) == MapLog(sb, view, ino, got)
  {
    assert NewBlocks(view', ino, got) == NewBlocks(view, ino, got);
    assert Bitmaps(sb, view', ino, got) == Bitmaps(sb, view, ino, got);
  }

  lemma EntryChain(ino1: Inode, ino2: Inode, g1: set<nat>, g2: set<nat>)
    requires ino1.addrs[NDIRECT] != 0 ==> ino2.addrs[NDIRECT] == ino1.addrs[NDIRECT]
    requires forall k :: k in g1 && k > NDIRECT ==> ino1.addrs[NDIRECT] != 0
    ensures EntryLog(ino2, g1 + g2) == EntryLog(ino1, g1) + EntryLog(ino2, g2)
  {
    if k :| k in g1 && k > NDIRECT {
      assert k in g1 + g2;
    } else if k :| k in g2 && k > NDIRECT {
      assert k in g1 + g2;
    }
  }

  lemma DataLogGrows(v1: seq<Block>, ino1: Inode, v2: seq<Block>, ino2: Inode, off: nat, tot: nat, m: nat, next: nat, bn: nat, b: nat)
    requires next == tot + m
    requires tot == 0 || (off + tot) % BSIZE == 0
    requires 0 < m && (off + tot) % BSIZE + m <= BSIZE && bn == (off + tot) / BSIZE < MAXFILE
    requires forall k :: k in Span(off, tot) ==> Ref(v2, ino2, k) == Ref(v1, ino1, k)
    requires b == Ref(v2, ino2, DataSlot(bn))
    ensures DataLog(v2, ino2, off, next) == DataLog(v1, ino1, off, tot) + {b}
  {
    SpanGrows(off, tot, m, bn);
    assert Span(off, next) == Span(off, tot) + {DataSlot(bn)};
    var l1, l2 := DataLog(v1, ino1, off, tot), DataLog(v2, ino2, off, next);
    forall c | c in l2
      ensures c in l1 + {b}
    {
      var k :| k in Span(off, next) && c == Ref(v2, ino2, k);
    }
    forall c | c in l1 + {b}
      ensures c in l2
    {
      if c in l1 {
        var k :| k in Span(off, tot) && c == Ref(v1, ino1, k);
        assert k in Span(off, next);
      } else {
        assert DataSlot(bn) in Span(off, next);
      }
    }
  }

  // ---- counting ----

  lemma {:induction false} ImageSize(s: set<nat>, f: nat -> nat)
    ensures |set x | x in s :: f(x)| <= |s|
    ensures (forall x, y :: x in s && y in s && f(x) == f(y) ==> x == y) ==> |set x | x in s :: f(x)| == |s|
  {
    if s != {} {
      var x :| x in s;
      var rest := s - {x};
      ImageSize(rest, f);
      var image, few := (set y | y in s :: f(y)), (set y | y in rest :: f(y));
      assert image == few + {f(x)};
      assert (forall a, b :: a in s && b in s && f(a) == f(b) ==> a == b) ==> f(x) !in few;
    }
  }

  ghost function Free(sb: Super, view: seq<Block>): set<nat>
    requires sb.Ok() && |view| == sb.size
  {
    set b: nat | b < sb.size && !InUse(sb, view, b)
  }

  /** Every slot that was filled has its own block, and it was free. */
  lemma FilledFromFree(sb: Super, view0: seq<Block>, inodes0: seq<Inode>, owner0: map<nat, Slot>,
                       view: seq<Block>, inodes: seq<Inode>, owner: map<nat, Slot>, i: nat, got: set<nat>, k: nat)
    requires Owned(sb, view0, inodes0, owner0) && Owned(sb, view, inodes, owner)
    requires Allocates(view0, inodes0, owner0, view, inodes, owner, i, got) && k in got
    ensures var b := Ref(view, inodes[i], k);
            b in owner && owner[b] == Slot(i, k) && b !in owner0 && b in Free(sb, view0)
  {
    var b := Ref(view, inodes[i], k);
    assert b in owner && owner[b] == Slot(i, k);
    assert Ref(view0, inodes0[i], k) == 0;
  }

  lemma NewOwners(sb: Super, view0: seq<Block>, inodes0: seq<Inode>, owner0: map<nat, Slot>,
                  view: seq<Block>, inodes: seq<Inode>, owner: map<nat, Slot>, i: nat, got: set<nat>)
    requires Owned(sb, view0, inodes0, owner0) && Owned(sb, view, inodes, owner)
    requires Allocates(view0, inodes0, owner0, view, inodes, owner, i, got)
    ensures NewBlocks(view, inodes[i], got) == owner.Keys - owner0.Keys
    ensures |NewBlocks(view, inodes[i], got)| == |got|
  {
    var taken, ino := NewBlocks(view, inodes[i], got), inodes[i];
    forall k | k in got
      ensures Ref(view, ino, k) in owner && owner[Ref(view, ino, k)] == Slot(i, k) && Ref(view, ino, k) !in owner0
    {
      FilledFromFree(sb, view0, inodes0, owner0, view, inodes, owner, i, got, k);
    }
    forall b | b in owner && b !in owner0
      ensures b in taken
    {
      assert Ref(view, ino, owner[b].k) == b;
    }
    var f := (k: nat) => Ref(view, ino, k) as nat;
    ImageSize(got, f);
    assert taken == set k | k in got :: f(k);
  }

  lemma FreeLess(sb: Super, view0: seq<Block>, inodes0: seq<Inode>, owner0: map<nat, Slot>,
                 view: seq<Block>, inodes: seq<Inode>, owner: map<nat, Slot>)
    requires Owned(sb, view0, inodes0, owner0) && Owned(sb, view, inodes, owner) && owner0.Keys <= owner.Keys
    ensures owner.Keys - owner0.Keys <= Free(sb, view0) && Free(sb, view) == Free(sb, view0) - (owner.Keys - owner0.Keys)
  {
    forall b | b in owner.Keys - owner0.Keys
      ensures b in Free(sb, view0)
    {
      assert b in owner;
    }
  }

  /** Conservation: a free block is lost for each slot that is filled, and for nothing else. */
  lemma Conservation(sb: Super, view0: seq<Block>, inodes0: seq<Inode>, owner0: map<nat, Slot>,
                     view: seq<Block>, inodes: seq<Inode>, owner: map<nat, Slot>, i: nat, got: set<nat>)
    requires Owned(sb, view0, inodes0, owner0) && Owned(sb, view, inodes, owner)
    requires Allocates(view0, inodes0, owner0, view, inodes, owner, i, got)
    ensures NewBlocks(view, inodes[i], got) <= Free(sb, view0) && Free(sb, view) == Free(sb, view0) - NewBlocks(view, inodes[i], got)
    ensures |NewBlocks(view, inodes[i], got)| == |got| && |Free(sb, view)| == |Free(sb, view0)| - |got|
  {
    assert owner0.Keys <= owner.Keys;
    NewOwners(sb, view0, inodes0, owner0, view, inodes, owner, i, got);
    FreeLess(sb, view0, inodes0, owner0, view, inodes, owner);
  }

  // ---- how much is logged at most ----

  /** The number of blocks a write of n bytes at off touches. */
  function Spanned(off: nat, n: nat): nat {
    if n == 0 then 0 else (off + n - 1) / BSIZE - off / BSIZE + 1
  }

  /** Two blocks for each block touched, as it may have to be allocated, except the first one if
      off lies inside it; the indirect block, its bitmap block, and the inode block. */
  function WriteCost(off: nat, n: nat): nat {
    if n == 0 then 0 else 2 * Spanned(off, n) + 3 - if off % BSIZE != 0 then 1 else 0
  }

  ghost function Interval(lo: nat, hi: nat): (s: set<nat>)
    ensures forall p :: p in s <==> lo <= p < hi
    ensures |s| == if lo <= hi then hi - lo else 0
  {
    if hi <= lo then {} else Interval(lo, hi - 1) + {hi - 1}
  }

  lemma SpanSize(off: nat, n: nat)
    ensures |Span(off, n)| <= Spanned(off, n)
  {
    var lo, hi := off / BSIZE, SpanEnd(off, n);
    if n > 0 {
      assert off / BSIZE <= (off + n - 1) / BSIZE;
    }
    var positions := Interval(lo, hi);
    var f := (p: nat) => DataSlot(p);
    ImageSize(positions, f);
    var image := set p | p in positions :: f(p);
    forall k | k in Span(off, n)
      ensures k in image
    {
      assert Position(k) in positions && f(Position(k)) == k;
    }
    Subset(Span(off, n), image);
  }

  lemma Subset(a: set<nat>, b: set<nat>)
    requires a <= b
    ensures |a| <= |b|
  {
    assert b == a + (b - a);
  }

  lemma UnionBound(a: set<nat>, b: set<nat>)
    ensures |a + b| <= |a| + |b|
  {
    assert a + b == a + (b - a);
    Subset(b - a, b);
  }

  /** The first block touched is there if off lies inside it. */
  lemma FirstThere(view: seq<Block>, ino: Inode, off: nat, n: nat)
    requires Dense(view, ino) && off <= ino.size && off % BSIZE != 0 && n > 0 && off + n <= MAXFILE * BSIZE
    ensures var k := DataSlot(off / BSIZE); k in Span(off, n) && k !in Need(view, ino, off, n)
  {
    assert off / BSIZE * BSIZE < ino.size;
    assert off / BSIZE <= (off + n - 1) / BSIZE;
  }

  /** The slots of the span that are not needed are there already. */
  lemma NeedSize(view: seq<Block>, ino: Inode, off: nat, n: nat)
    requires Dense(view, ino) && off <= ino.size && n > 0 && off + n <= MAXFILE * BSIZE
    ensures |Need(view, ino, off, n) - {NDIRECT}| + |Span(off, n) - Need(view, ino, off, n)| == |Span(off, n)|
    ensures |Need(view, ino, off, n) - {NDIRECT}| <= Spanned(off, n) - if off % BSIZE != 0 then 1 else 0
  {
    var need, span := Need(view, ino, off, n), Span(off, n);
    SpanSize(off, n);
    assert span == (need - {NDIRECT}) + (span - need);
    if off % BSIZE != 0 {
      FirstThere(view, ino, off, n);
      Subset({DataSlot(off / BSIZE)}, span - need);
    }
  }

  /** New blocks and their bitmap blocks. */
  lemma NewCost(sb: Super, view: seq<Block>, ino: Inode, got: set<nat>)
    ensures |NewBlocks(view, ino, got)| <= |got| && |Bitmaps(sb, view, ino, got)| <= |got|
  {
    var f, g := (k: nat) => Ref(view, ino, k) as nat, (k: nat) => sb.BBlock(Ref(view, ino, k));
    ImageSize(got, f);
    ImageSize(got, g);
    assert NewBlocks(view, ino, got) == set k | k in got :: f(k);
    assert Bitmaps(sb, view, ino, got) == set k | k in got :: g(k);
  }

  lemma OldCost(view: seq<Block>, ino: Inode, off: nat, n: nat, need: set<nat>) returns (older: set<nat>)
    ensures DataLog(view, ino, off, n) <= NewBlocks(view, ino, need) + older && |older| <= |Span(off, n) - need|
  {
    var f := (k: nat) => Ref(view, ino, k) as nat;
    older := set k | k in Span(off, n) - need :: f(k);
    ImageSize(Span(off, n) - need, f);
    forall b | b in DataLog(view, ino, off, n)
      ensures b in NewBlocks(view, ino, need) + older
    {
      var k :| k in Span(off, n) && b == Ref(view, ino, k);
      assert k !in need ==> f(k) in older;
    }
  }

  /** The indirect block counts as new, or on its own. */
  lemma EntryCost(view: seq<Block>, ino: Inode, need: set<nat>)
    ensures NDIRECT in need ==> EntryLog(ino, need) <= NewBlocks(view, ino, need)
    ensures |EntryLog(ino, need)| <= 1
  {
    if NDIRECT in need {
      assert Ref(view, ino, NDIRECT) == ino.addrs[NDIRECT];
    }
  }

  /** Part of a write: the slots got of those it needs are filled, the first tot bytes stored. */
  lemma PartBound(sb: Super, view0: seq<Block>, ino0: Inode, view: seq<Block>, ino: Inode, off: nat, n: nat, tot: nat, got: set<nat>)
    requires Dense(view0, ino0) && off <= ino0.size && off + n <= MAXFILE * BSIZE && 0 < n && tot <= n
    requires Need(view0, ino0, off, tot) <= got <= Need(view0, ino0, off, n) && Span(off, tot) <= Span(off, n)
    ensures |MapLog(sb, view, ino, got) + DataLog(view, ino, off, tot)| < WriteCost(off, n)
  {
    var need := Need(view0, ino0, off, n);
    NeedSize(view0, ino0, off, n);
    NewCost(sb, view, ino, got);
    EntryCost(view, ino, got);
    var older := OldCost(view, ino, off, tot, got);
    assert Span(off, tot) - got <= Span(off, n) - need;
    Subset(Span(off, tot) - got, Span(off, n) - need);
    Subset(got - {NDIRECT}, need - {NDIRECT});
    assert got == (got - {NDIRECT}) + if NDIRECT in got then {NDIRECT} else {};
    SpanSize(off, n);
    Sum(MapLog(sb, view, ino, got) + DataLog(view, ino, off, tot), NewBlocks(view, ino, got), Bitmaps(sb, view, ino, got), older,
        if NDIRECT in got then {} else EntryLog(ino, got));
  }

  /** No write logs more than this. */
  lemma LogBound(sb: Super, view0: seq<Block>, ino0: Inode, view: seq<Block>, ino: Inode, i: nat, off: nat, n: nat)
    requires Dense(view0, ino0) && off <= ino0.size && off + n <= MAXFILE * BSIZE
    ensures |WriteLog(sb, view0, ino0, view, ino, i, off, n)| <= WriteCost(off, n)
  {
    var need := Need(view0, ino0, off, n);
    if n == 0 {
      assert need == {} && Span(off, n) == {};
      MapLogNone(sb, view, ino);
      assert WriteLog(sb, view0, ino0, view, ino, i, off, n) == {};
    } else {
      PartBound(sb, view0, ino0, view, ino, off, n, n, need);
      UnionBound(MapLog(sb, view, ino, need) + DataLog(view, ino, off, n), if n > 0 && off + n > ino0.size then {sb.IBlock(i)} else {});
    }
  }

  lemma Sum(all: set<nat>, a: set<nat>, b: set<nat>, c: set<nat>, d: set<nat>)
    requires all <= a + b + c + d
    ensures |all| <= |a| + |b| + |c| + |d|
  {
    Subset(all, a + b + c + d);
    UnionBound(a, b);
    UnionBound(a + b, c);
    UnionBound(a + b + c, d);
  }
}
