/** What writei and filewrite do to the bytes of the files, the inodes and the log: the facts
    behind the methods of Fs. */
module Writing {
  import opened Blocks
  import opened Inodes
  import opened Growth
  import LogMachine
  import Transactions

  const CHUNK: nat := 1536   // three blocks: half of MAXOPBLOCKS without four

  /** A file system at one moment: done counts the bytes of a filewrite that are in it. */
  datatype Stage = Stage(view: seq<Block>, inodes: seq<Inode>, owner: map<nat, Slot>, done: nat)

  lemma BitmapPosition(sb: Super, b: nat, bi: nat)
    requires b % BPB == 0 && bi < BPB
    ensures sb.BBlock(b + bi) == sb.BBlock(b) && (b + bi) % BPB == bi
  {
  }

  lemma NextBlock(b: nat)
    requires b % BPB == 0
    ensures (b + BPB) % BPB == 0
  {
  }

  // ---- bmap ----

  /** The slots got are filled, and no data block is disturbed. */
  ghost predicate Fills(sb: Super, view0: seq<Block>, inodes0: seq<Inode>, owner0: map<nat, Slot>,
                        view: seq<Block>, inodes: seq<Inode>, owner: map<nat, Slot>, i: nat, got: set<nat>)
  {
    GrownBy(sb, view0, inodes0, owner0, view, inodes, owner, i, got) && Keeps(view0, inodes0, view, inodes)
  }

  lemma FillsNothing(sb: Super, view: seq<Block>, inodes: seq<Inode>, owner: map<nat, Slot>, i: nat)
    requires Owned(sb, view, inodes, owner) && i < |inodes|
    ensures Fills(sb, view, inodes, owner, view, inodes, owner, i, {})
  {
    KeepsSame(sb, view, inodes, owner);
  }

  lemma FillsOne(sb: Super, view0: seq<Block>, inodes0: seq<Inode>, owner0: map<nat, Slot>,
                 view: seq<Block>, inodes: seq<Inode>, owner: map<nat, Slot>, i: nat, k: nat, b: nat)
    requires Owned(sb, view0, inodes0, owner0) && i < |inodes0| && k < NSLOTS && b < sb.size && !InUse(sb, view0, b)
    requires OneRef(view0, inodes0, view, inodes, i, k, b) && Ref(view0, inodes0[i], k) == 0 && Keeps(view0, inodes0, view, inodes)
    requires OnlyAddrs(inodes0, inodes, i) && owner == owner0[b := Slot(i, k)]
    requires |view| == |view0| && forall c :: 0 <= c < sb.nmeta && c != sb.BBlock(b) ==> view[c] == view0[c]
    ensures Fills(sb, view0, inodes0, owner0, view, inodes, owner, i, {k})
  {
  }

  lemma AddrFills(sb: Super, view: seq<Block>, inodes: seq<Inode>, owner: map<nat, Slot>, i: nat, k: nat, b: Word)
    requires Owned(sb, view, inodes, owner) && i < |inodes| && k <= NDIRECT
    requires inodes[i].addrs[k] == 0 && b < sb.size && !InUse(sb, view, b)
    ensures var view', inodes', owner' := Taken(sb, view, b), inodes[i := WithAddr(inodes[i], k, b)], owner[b := Slot(i, k)];
            && Owned(sb, view', inodes', owner') && Fills(sb, view, inodes, owner, view', inodes', owner', i, {k})
            && b != 0 && MapLog(sb, view', inodes'[i], {k}) == {sb.BBlock(b), b as nat}
  {
    var view', inodes', owner' := Taken(sb, view, b), inodes[i := WithAddr(inodes[i], k, b)], owner[b := Slot(i, k)];
    AttachAddr(sb, view, inodes, owner, i, k, b);
    assert b in owner';
    FillsOne(sb, view, inodes, owner, view', inodes', owner', i, k, b);
    MapLogOne(sb, view', inodes'[i], k, b);
  }

  lemma EntryFills(sb: Super, view: seq<Block>, inodes: seq<Inode>, owner: map<nat, Slot>, i: nat, k: nat, b: Word)
    returns (view': seq<Block>, owner': map<nat, Slot>)
    requires Owned(sb, view, inodes, owner) && i < |inodes| && 12 <= k < NSLOTS
    requires inodes[i].addrs[NDIRECT] != 0 && Ref(view, inodes[i], k) == 0
    requires b < sb.size && !InUse(sb, view, b)
    ensures owner' == owner[b := Slot(i, k)]
    ensures var a := inodes[i].addrs[NDIRECT];
            && a < sb.size && view' == Taken(sb, view, b)[a := PutWord(Taken(sb, view, b)[a], k - 12, b)]
            && Owned(sb, view', inodes, owner') && Fills(sb, view, inodes, owner, view', inodes, owner', i, {k})
            && b != 0 && Ref(view', inodes[i], k) == b && MapLog(sb, view', inodes[i], {k}) == {sb.BBlock(b), b as nat, a as nat}
  {
    var a := inodes[i].addrs[NDIRECT];
    owner' := owner[b := Slot(i, k)];
    AttachEntry(sb, view, inodes, owner, i, k, b);
    view' := Taken(sb, view, b)[a := PutWord(view[a], k - 12, b)];
    EntryPlace(sb, view, inodes, owner, i, b, a, view'[a], view');
    FillsOne(sb, view, inodes, owner, view', inodes, owner', i, k, b);
    MapLogOne(sb, view', inodes[i], k, b);
  }

  lemma EntryPlace(sb: Super, view: seq<Block>, inodes: seq<Inode>, owner: map<nat, Slot>, i: nat, b: Word, a: Word, data: Block, view': seq<Block>)
    requires Owned(sb, view, inodes, owner) && i < |inodes| && a == inodes[i].addrs[NDIRECT] != 0 && a < sb.size
    requires b < sb.size && !InUse(sb, view, b) && view' == Taken(sb, view, b)[a := data]
    ensures 0 < b && forall c :: 0 <= c < sb.nmeta && c != sb.BBlock(b) ==> view'[c] == view[c]
  {
    IndirectBlocks(sb, view, inodes, owner, 0, 0, i);
  }

  /** The indirect block first, then the entry. */
  lemma Joined(sb: Super, v0: seq<Block>, i0: seq<Inode>, o0: map<nat, Slot>, v1: seq<Block>, i1: seq<Inode>, o1: map<nat, Slot>,
               v2: seq<Block>, i2: seq<Inode>, o2: map<nat, Slot>, i: nat, bn: nat, g1: set<nat>, g2: set<nat>,
               logged0: set<nat>, logged1: set<nat>, logged2: set<nat>)
    requires Fills(sb, v0, i0, o0, v1, i1, o1, i, g1) && Fills(sb, v1, i1, o1, v2, i2, o2, i, g2) && i2 == i1
    requires NDIRECT <= bn < MAXFILE && g1 == if i0[i].addrs[NDIRECT] == 0 then {NDIRECT} else {}
    requires g2 == {} || (g2 == {DataSlot(bn)} && Ref(v1, i1[i], DataSlot(bn)) == 0)
    requires logged1 == logged0 + MapLog(sb, v1, i1[i], g1) && logged2 == logged1 + MapLog(sb, v2, i2[i], g2)
    ensures Fills(sb, v0, i0, o0, v2, i2, o2, i, g1 + g2)
    ensures logged2 == logged0 + MapLog(sb, v2, i2[i], g1 + g2)
    ensures Ref(v1, i1[i], DataSlot(bn)) != 0 || g2 != {} ==> g1 + g2 == MapNeed(v0, i0[i], bn)
    ensures Ref(v1, i1[i], DataSlot(bn)) == 0 && g2 == {} ==> g1 + g2 < MapNeed(v0, i0[i], bn)
  {
    GrownChain(sb, v0, i0, o0, v1, i1, o1, v2, i2, o2, i, g1, g2);
    KeepsChain(v0, i0, v1, i1, v2, i2);
    MapLogChain(sb, v1, i1[i], v2, i2[i], g1, g2);
    assert Ref(v1, i1[i], DataSlot(bn)) == Ref(v0, i0[i], DataSlot(bn));
    if Ref(v1, i1[i], DataSlot(bn)) == 0 && g2 == {} {
      assert DataSlot(bn) in MapNeed(v0, i0[i], bn) && DataSlot(bn) !in g1;
    }
  }

  // ---- writei ----

  datatype WriteResult = Refused | OutOfBlocks | Wrote

  /** writei's preliminaries are passed. */
  ghost predicate Started(sb: Super, s0: Stage, i: nat, off: nat) {
    Consistent(sb, s0.view, s0.inodes, s0.owner) && i < |s0.inodes| && off <= s0.inodes[i].size
  }

  /** Fewer blocks are free than the write has empty slots to fill. */
  ghost predicate TooFew(sb: Super, view: seq<Block>, inodes: seq<Inode>, i: nat, off: nat, n: nat) {
    sb.Ok() && |view| == sb.size && i < |inodes| && |Free(sb, view)| < |Need(view, inodes[i], off, n)|
  }

  /** The first tot bytes are stored and the slots they need filled. */
  ghost predicate Doing(sb: Super, s0: Stage, s: Stage, i: nat, off: nat, src: seq<Byte>, tot: nat) {
    && tot <= |src| && Written(s0.view, s0.inodes, s.view, s.inodes, i, off, src[..tot])
    && GrownBy(sb, s0.view, s0.inodes, s0.owner, s.view, s.inodes, s.owner, i, Need(s0.view, s0.inodes[i], off, tot))
    && Aligned(off, tot, |src|)
  }

  ghost predicate Going(sb: Super, s0: Stage, s: Stage, logged0: set<nat>, logged: set<nat>, i: nat, off: nat, src: seq<Byte>, tot: nat) {
    && Doing(sb, s0, s, i, off, src, tot)
    && logged == logged0 + MapLog(sb, s.view, s.inodes[i], Need(s0.view, s0.inodes[i], off, tot)) + DataLog(s.view, s.inodes[i], off, tot)
  }

  /** A round ends at the end of a block or of the write. */
  predicate Aligned(off: nat, tot: nat, n: nat) {
    tot == n || tot == 0 || (off + tot) % BSIZE == 0
  }

  lemma DoingStart(sb: Super, s0: Stage, i: nat, off: nat, src: seq<Byte>)
    requires Started(sb, s0, i, off)
    ensures Doing(sb, s0, s0, i, off, src, 0) && Need(s0.view, s0.inodes[i], off, 0) == {}
  {
    WrittenStart(s0.view, s0.inodes, s0.owner, sb, i, off);
    assert src[..0] == [];
    assert Need(s0.view, s0.inodes[i], off, 0) == {};
    GrownNothing(sb, s0.view, s0.inodes, s0.owner, i);
  }

  lemma GoingStart(sb: Super, s0: Stage, logged0: set<nat>, i: nat, off: nat, src: seq<Byte>)
    requires Started(sb, s0, i, off)
    ensures Going(sb, s0, s0, logged0, logged0, i, off, src, 0)
  {
    DoingStart(sb, s0, i, off, src);
    assert Span(off, 0) == {};
    MapLogNone(sb, s0.view, s0.inodes[i]);
    assert DataLog(s0.view, s0.inodes[i], off, 0) == {};
  }

  /** What has been needed so far is filled, and nothing else has changed. */
  lemma FilledSoFar(sb: Super, s0: Stage, s: Stage, i: nat, off: nat, src: seq<Byte>, tot: nat, m: nat, next: nat, bn: nat)
    requires Doing(sb, s0, s, i, off, src, tot) && next == tot + m <= |src| && Round(off, tot, m, bn)
    ensures Need(s0.view, s0.inodes[i], off, next) == Need(s0.view, s0.inodes[i], off, tot) + MapNeed(s.view, s.inodes[i], bn)
  {
    NeedGrows(s0.view, s0.inodes[i], s.view, s.inodes[i], off, tot, m, bn);
  }

  /** bmap, and the bytes stored. */
  lemma RoundOver(sb: Super, s0: Stage, s1: Stage, s2: Stage, s3: Stage, i: nat, off: nat, src: seq<Byte>, tot: nat, m: nat, next: nat, bn: nat,
                  got: set<nat>, done: seq<Byte>, chunk: seq<Byte>)
    requires Doing(sb, s0, s1, i, off, src, tot) && next == tot + m <= |src| && Round(off, tot, m, bn)
    requires Aligned(off, next, |src|) && done == src[..tot] && chunk == src[tot..next]
    requires GrownBy(sb, s1.view, s1.inodes, s1.owner, s2.view, s2.inodes, s2.owner, i, got) && got == MapNeed(s1.view, s1.inodes[i], bn)
    requires GrownBy(sb, s2.view, s2.inodes, s2.owner, s3.view, s3.inodes, s3.owner, i, {}) && s3.inodes == s2.inodes
    requires Written(s0.view, s0.inodes, s3.view, s3.inodes, i, off, done + chunk)
    ensures Doing(sb, s0, s3, i, off, src, next)
  {
    FilledSoFar(sb, s0, s1, i, off, src, tot, m, next, bn);
    RoundGrown(sb, s0, s1, s2, s3, i, Need(s0.view, s0.inodes[i], off, tot), got);
    TakeMore(src, tot, next);
  }

  lemma RoundDone(sb: Super, s0: Stage, s1: Stage, s2: Stage, s3: Stage, logged0: set<nat>, logged1: set<nat>, logged2: set<nat>, logged3: set<nat>,
                  i: nat, off: nat, src: seq<Byte>, tot: nat, m: nat, next: nat, bn: nat, b: Word, got: set<nat>, done: seq<Byte>, chunk: seq<Byte>)
    requires Going(sb, s0, s1, logged0, logged1, i, off, src, tot) && next == tot + m <= |src| && Round(off, tot, m, bn)
    requires Aligned(off, next, |src|) && done == src[..tot] && chunk == src[tot..next]
    requires GrownBy(sb, s1.view, s1.inodes, s1.owner, s2.view, s2.inodes, s2.owner, i, got) && got == MapNeed(s1.view, s1.inodes[i], bn)
    requires GrownBy(sb, s2.view, s2.inodes, s2.owner, s3.view, s3.inodes, s3.owner, i, {}) && s3.inodes == s2.inodes
    requires logged2 == logged1 + MapLog(sb, s2.view, s2.inodes[i], got) && logged3 == logged2 + {b as nat}
    requires b == Ref(s2.view, s2.inodes[i], DataSlot(bn))
    requires Written(s0.view, s0.inodes, s3.view, s3.inodes, i, off, done + chunk)
    ensures Going(sb, s0, s3, logged0, logged3, i, off, src, next)
  {
    var need := Need(s0.view, s0.inodes[i], off, tot);
    var all := need + got;
    RoundOver(sb, s0, s1, s2, s3, i, off, src, tot, m, next, bn, got, done, chunk);
    FilledSoFar(sb, s0, s1, i, off, src, tot, m, next, bn);
    RoundGrown(sb, s0, s1, s2, s3, i, need, got);
    RoundLog(sb, s1.view, s1.inodes[i], s2.view, s2.inodes[i], s3.view, off, tot, m, next, bn, b, need, got, all);
    Regroup(logged0, logged1, logged2, logged3, MapLog(sb, s1.view, s1.inodes[i], need), DataLog(s1.view, s1.inodes[i], off, tot),
            MapLog(sb, s2.view, s2.inodes[i], got), {b as nat},
            MapLog(sb, s3.view, s3.inodes[i], all), DataLog(s3.view, s3.inodes[i], off, next));
  }

  lemma RoundGrown(sb: Super, s0: Stage, s1: Stage, s2: Stage, s3: Stage, i: nat, need: set<nat>, got: set<nat>)
    requires GrownBy(sb, s0.view, s0.inodes, s0.owner, s1.view, s1.inodes, s1.owner, i, need)
    requires GrownBy(sb, s1.view, s1.inodes, s1.owner, s2.view, s2.inodes, s2.owner, i, got)
    requires GrownBy(sb, s2.view, s2.inodes, s2.owner, s3.view, s3.inodes, s3.owner, i, {})
    ensures GrownBy(sb, s0.view, s0.inodes, s0.owner, s3.view, s3.inodes, s3.owner, i, need + got)
    ensures forall k :: k in need ==> k < NSLOTS && k !in got && Ref(s1.view, s1.inodes[i], k) != 0
    ensures forall k :: k in got ==> k < NSLOTS && Ref(s2.view, s2.inodes[i], k) != 0
    ensures forall k: nat :: k < NSLOTS && k !in got ==> Ref(s2.view, s2.inodes[i], k) == Ref(s1.view, s1.inodes[i], k)
    ensures forall k: nat :: k < NSLOTS ==> Ref(s3.view, s3.inodes[i], k) == Ref(s2.view, s2.inodes[i], k)
  {
    GrownChain(sb, s0.view, s0.inodes, s0.owner, s1.view, s1.inodes, s1.owner, s2.view, s2.inodes, s2.owner, i, need, got);
    GrownChain(sb, s0.view, s0.inodes, s0.owner, s2.view, s2.inodes, s2.owner, s3.view, s3.inodes, s3.owner, i, need + got, {});
    assert need + got + {} == need + got;
  }

  lemma TakeMore(src: seq<Byte>, tot: nat, next: nat)
    requires tot <= next <= |src|
    ensures src[..tot] + src[tot..next] == src[..next]
  {
  }

  lemma Regroup(l0: set<nat>, l1: set<nat>, l2: set<nat>, l3: set<nat>, a: set<nat>, d: set<nat>, c: set<nat>, e: set<nat>, a': set<nat>, d': set<nat>)
    requires l1 == l0 + a + d && l2 == l1 + c && l3 == l2 + e && a' + d' == a + d + c + e
    ensures l3 == l0 + a' + d'
  {
    assert l0 + a' + d' == l0 + (a' + d');
  }

  /** What one round adds to the log. */
  lemma RoundLog(sb: Super, v1: seq<Block>, ino1: Inode, v2: seq<Block>, ino2: Inode, v3: seq<Block>, off: nat, tot: nat, m: nat, next: nat, bn: nat, b: Word,
                 need: set<nat>, got: set<nat>, all: set<nat>)
    requires Round(off, tot, m, bn) && next == tot + m && all == need + got
    requires forall k: nat :: k < NSLOTS && k !in got ==> Ref(v2, ino2, k) == Ref(v1, ino1, k)
    requires forall k: nat :: k < NSLOTS ==> Ref(v3, ino2, k) == Ref(v2, ino2, k)
    requires forall k :: k in need ==> k < NSLOTS && k !in got && Ref(v1, ino1, k) != 0
    requires forall k :: k in got ==> k < NSLOTS && Ref(v2, ino2, k) != 0
    requires got == MapNeed(v1, ino1, bn) && b == Ref(v2, ino2, DataSlot(bn))
    ensures MapLog(sb, v3, ino2, all) + DataLog(v3, ino2, off, next) ==
              MapLog(sb, v1, ino1, need) + DataLog(v1, ino1, off, tot) + MapLog(sb, v2, ino2, got) + {b as nat}
  {
    SpanGrows(off, tot, m, bn);
    assert Ref(v2, ino2, NDIRECT) == ino2.addrs[NDIRECT] && Ref(v1, ino1, NDIRECT) == ino1.addrs[NDIRECT];
    MapLogChain(sb, v1, ino1, v3, ino2, need, got);
    MapLogSame(sb, v2, v3, ino2, got);
    DataLogGrows(v1, ino1, v3, ino2, off, tot, m, next, bn, b);
    Shuffle(MapLog(sb, v1, ino1, need), MapLog(sb, v2, ino2, got), DataLog(v1, ino1, off, tot), {b as nat});
  }

  lemma Shuffle(a: set<nat>, b: set<nat>, c: set<nat>, d: set<nat>)
    ensures a + b + (c + d) == a + c + b + d
  {
  }

  lemma NeedMonotone(view: seq<Block>, ino: Inode, off: nat, tot: nat, n: nat)
    requires tot <= n
    ensures Need(view, ino, off, tot) <= Need(view, ino, off, n) && Span(off, tot) <= Span(off, n)
  {
    if tot > 0 {
      assert (off + tot - 1) / BSIZE <= (off + n - 1) / BSIZE;
    } else if n > 0 {
      assert off / BSIZE <= (off + n - 1) / BSIZE;
    }
  }

  /** bmap has panicked: every free block has gone into a needed slot, and one is left empty. */
  lemma OutOf(sb: Super, s0: Stage, s1: Stage, s2: Stage, i: nat, off: nat, src: seq<Byte>, tot: nat, m: nat, next: nat, bn: nat, got: set<nat>)
    requires Started(sb, s0, i, off) && Owned(sb, s2.view, s2.inodes, s2.owner) && Free(sb, s2.view) == {}
    requires Doing(sb, s0, s1, i, off, src, tot) && next == tot + m <= |src| && Round(off, tot, m, bn)
    requires GrownBy(sb, s1.view, s1.inodes, s1.owner, s2.view, s2.inodes, s2.owner, i, got) && got < MapNeed(s1.view, s1.inodes[i], bn)
    ensures TooFew(sb, s0.view, s0.inodes, i, off, |src|)
    ensures Need(s0.view, s0.inodes[i], off, tot) + got <= Need(s0.view, s0.inodes[i], off, |src|)
    ensures forall k :: k in Need(s0.view, s0.inodes[i], off, tot) ==> k < NSLOTS && k !in got && Ref(s1.view, s1.inodes[i], k) != 0
    ensures forall k: nat :: k < NSLOTS && k !in got ==> Ref(s2.view, s2.inodes[i], k) == Ref(s1.view, s1.inodes[i], k)
  {
    var need, more := Need(s0.view, s0.inodes[i], off, tot), MapNeed(s1.view, s1.inodes[i], bn);
    FilledSoFar(sb, s0, s1, i, off, src, tot, m, next, bn);
    NeedMonotone(s0.view, s0.inodes[i], off, next, |src|);
    ShortGrown(sb, s0, s1, s2, i, need, got, more, Need(s0.view, s0.inodes[i], off, |src|), bn);
  }

  lemma Short(sb: Super, s0: Stage, s1: Stage, s2: Stage, logged0: set<nat>, logged1: set<nat>, logged2: set<nat>,
              i: nat, off: nat, src: seq<Byte>, tot: nat, m: nat, next: nat, bn: nat, got: set<nat>)
    requires Started(sb, s0, i, off) && off + |src| <= MAXFILE * BSIZE && Owned(sb, s2.view, s2.inodes, s2.owner) && Free(sb, s2.view) == {}
    requires Going(sb, s0, s1, logged0, logged1, i, off, src, tot) && next == tot + m <= |src| && Round(off, tot, m, bn)
    requires GrownBy(sb, s1.view, s1.inodes, s1.owner, s2.view, s2.inodes, s2.owner, i, got) && got < MapNeed(s1.view, s1.inodes[i], bn)
    requires logged2 == logged1 + MapLog(sb, s2.view, s2.inodes[i], got)
    ensures TooFew(sb, s0.view, s0.inodes, i, off, |src|) && Bounded(sb, logged0, logged2, off, |src|)
  {
    OutOf(sb, s0, s1, s2, i, off, src, tot, m, next, bn, got);
    NeedMonotone(s0.view, s0.inodes[i], off, tot, |src|);
    SpanGrows(off, tot, m, bn);
    ShortSpan(s0, s1, s2, i, off, tot, got);
    ShortLog(sb, s0, s1, s2, i, off, tot, |src|, Need(s0.view, s0.inodes[i], off, tot), got, logged0, logged2);
  }

  lemma ShortSpan(s0: Stage, s1: Stage, s2: Stage, i: nat, off: nat, tot: nat, got: set<nat>)
    requires i < |s0.inodes| && RefsFilled(s0.view, s0.inodes, s1.view, s1.inodes, i, Need(s0.view, s0.inodes[i], off, tot))
    requires RefsFilled(s1.view, s1.inodes, s2.view, s2.inodes, i, got)
    ensures forall k :: k in got || k in Span(off, tot) ==> k < NSLOTS && Ref(s2.view, s2.inodes[i], k) != 0
    ensures forall k :: k in Span(off, tot) ==> k !in got
    ensures NDIRECT !in got || s1.inodes[i].addrs[NDIRECT] == 0
  {
    forall k | k in Span(off, tot)
      ensures k < NSLOTS && k !in got && Ref(s2.view, s2.inodes[i], k) != 0
    {
      assert Ref(s1.view, s1.inodes[i], k) != 0 by {
        if k !in Need(s0.view, s0.inodes[i], off, tot) {
          assert Ref(s0.view, s0.inodes[i], k) != 0;
        }
      }
    }
    assert Ref(s1.view, s1.inodes[i], NDIRECT) == s1.inodes[i].addrs[NDIRECT];
  }

  /** Not more is logged than a write can need, and nothing before the inode blocks. */
  ghost predicate Bounded(sb: Super, logged0: set<nat>, logged: set<nat>, off: nat, n: nat) {
    |logged| <= |logged0| + WriteCost(off, n) && forall b :: b in logged ==> b in logged0 || sb.inodestart <= b < sb.size
  }

  lemma ShortGrown(sb: Super, s0: Stage, s1: Stage, s2: Stage, i: nat, need: set<nat>, got: set<nat>, more: set<nat>, full: set<nat>, bn: nat)
    requires Owned(sb, s0.view, s0.inodes, s0.owner) && Owned(sb, s2.view, s2.inodes, s2.owner) && Free(sb, s2.view) == {}
    requires GrownBy(sb, s0.view, s0.inodes, s0.owner, s1.view, s1.inodes, s1.owner, i, need)
    requires GrownBy(sb, s1.view, s1.inodes, s1.owner, s2.view, s2.inodes, s2.owner, i, got)
    requires more == MapNeed(s1.view, s1.inodes[i], bn) && got < more && need + more <= full && bn < MAXFILE
    ensures |Free(sb, s0.view)| < |full|
    ensures forall k :: k in need ==> k < NSLOTS && k !in got && Ref(s1.view, s1.inodes[i], k) != 0
    ensures forall k: nat :: k < NSLOTS && k !in got ==> Ref(s2.view, s2.inodes[i], k) == Ref(s1.view, s1.inodes[i], k)
  {
    GrownChain(sb, s0.view, s0.inodes, s0.owner, s1.view, s1.inodes, s1.owner, s2.view, s2.inodes, s2.owner, i, need, got);
    Conservation(sb, s0.view, s0.inodes, s0.owner, s2.view, s2.inodes, s2.owner, i, need + got);
    forall k | k in more
      ensures k !in need
    {
      assert Ref(s1.view, s1.inodes[i], NDIRECT) == s1.inodes[i].addrs[NDIRECT];
      assert Ref(s1.view, s1.inodes[i], k) == 0;
    }
    ProperSubset(need, got, more, full);
  }

  lemma ProperSubset(need: set<nat>, got: set<nat>, more: set<nat>, full: set<nat>)
    requires got < more && need + more <= full && need !! more
    ensures |need + got| < |full|
  {
    var k :| k in more && k !in got;
    assert need + got <= full - {k};
    Subset(need + got, full - {k});
  }

  lemma ShortLog(sb: Super, s0: Stage, s1: Stage, s2: Stage, i: nat, off: nat, tot: nat, n: nat, need: set<nat>, got: set<nat>, logged0: set<nat>, logged2: set<nat>)
    requires i < |s0.inodes| && i < |s1.inodes| && i < |s2.inodes| && Dense(s0.view, s0.inodes[i]) && off <= s0.inodes[i].size && off + n <= MAXFILE * BSIZE
    requires tot < n && need == Need(s0.view, s0.inodes[i], off, tot) && need + got <= Need(s0.view, s0.inodes[i], off, n)
    requires forall k: nat :: k < NSLOTS && k !in got ==> Ref(s2.view, s2.inodes[i], k) == Ref(s1.view, s1.inodes[i], k)
    requires forall k :: k in need ==> k < NSLOTS && k !in got && Ref(s1.view, s1.inodes[i], k) != 0
    requires logged2 == logged0 + MapLog(sb, s1.view, s1.inodes[i], need) + DataLog(s1.view, s1.inodes[i], off, tot) + MapLog(sb, s2.view, s2.inodes[i], got)
    requires (forall k :: k in Span(off, tot) ==> k !in got) && (NDIRECT !in got || s1.inodes[i].addrs[NDIRECT] == 0)
    requires Span(off, tot) <= Span(off, n) && Owned(sb, s2.view, s2.inodes, s2.owner)
    requires forall k :: k in got || k in Span(off, tot) ==> k < NSLOTS && Ref(s2.view, s2.inodes[i], k) != 0
    ensures Bounded(sb, logged0, logged2, off, n)
  {
    var all := need + got;
    MapLogChain(sb, s1.view, s1.inodes[i], s2.view, s2.inodes[i], need, got);
    SameData(s1.view, s1.inodes[i], s2.view, s2.inodes[i], off, tot);
    PartBound(sb, s0.view, s0.inodes[i], s2.view, s2.inodes[i], off, n, tot, all);
    var part := MapLog(sb, s2.view, s2.inodes[i], all) + DataLog(s2.view, s2.inodes[i], off, tot);
    PartInRange(sb, s2, i, all, off, tot, part);
    Collect(logged0, logged2, MapLog(sb, s1.view, s1.inodes[i], need), MapLog(sb, s2.view, s2.inodes[i], got), DataLog(s1.view, s1.inodes[i], off, tot), part);
  }

  lemma Collect(l0: set<nat>, l2: set<nat>, a: set<nat>, b: set<nat>, d: set<nat>, part: set<nat>)
    requires l2 == l0 + a + d + b && part == a + b + d
    ensures l2 == l0 + part && |l2| <= |l0| + |part|
  {
    UnionBound(l0, part);
  }

  lemma SameData(view1: seq<Block>, ino1: Inode, view: seq<Block>, ino: Inode, off: nat, n: nat)
    requires forall k :: k in Span(off, n) ==> Ref(view, ino, k) == Ref(view1, ino1, k)
    ensures DataLog(view, ino, off, n) == DataLog(view1, ino1, off, n)
  {
  }

  lemma PartInRange(sb: Super, s: Stage, i: nat, got: set<nat>, off: nat, n: nat, part: set<nat>)
    requires Owned(sb, s.view, s.inodes, s.owner) && i < |s.inodes|
    requires part == MapLog(sb, s.view, s.inodes[i], got) + DataLog(s.view, s.inodes[i], off, n)
    requires forall k :: k in got || k in Span(off, n) ==> k < NSLOTS && Ref(s.view, s.inodes[i], k) != 0
    ensures forall b :: b in part ==> sb.inodestart <= b < sb.size
  {
    forall b | b in part
      ensures sb.inodestart <= b < sb.size
    {
      PartRange(sb, s, i, got, off, n, b);
    }
  }

  /** The loop has come to its end, so the blocks have sufficed. */
  lemma EnoughFree(sb: Super, s0: Stage, s: Stage, i: nat, off: nat, src: seq<Byte>)
    requires Started(sb, s0, i, off) && Owned(sb, s.view, s.inodes, s.owner) && Doing(sb, s0, s, i, off, src, |src|)
    ensures !TooFew(sb, s0.view, s0.inodes, i, off, |src|)
  {
    Conservation(sb, s0.view, s0.inodes, s0.owner, s.view, s.inodes, s.owner, i, Need(s0.view, s0.inodes[i], off, |src|));
  }

  /** File i is what it was with src written at off; the other files are unchanged. */
  ghost predicate WroteAt(view0: seq<Block>, inodes0: seq<Inode>, view: seq<Block>, inodes: seq<Inode>, i: nat, off: nat, src: seq<Byte>) {
    && i < |inodes| == |inodes0| && off <= inodes0[i].size
    && Content(view, inodes[i]) == Spliced(Content(view0, inodes0[i]), off, src)
    && (forall j :: 0 <= j < |inodes| && j != i ==>
          inodes[j] == inodes0[j] && Content(view, inodes[j]) == Content(view0, inodes0[j]))
  }

  /** The inode blocks still hold every other inode. */
  lemma StoredOthers(sb: Super, s0: Stage, s1: Stage, i: nat, inodes: seq<Inode>)
    requires Consistent(sb, s0.view, s0.inodes, s0.owner) && i < |s0.inodes|
    requires |s1.inodes| == |s0.inodes| && (forall j :: 0 <= j < |s0.inodes| && j != i ==> s1.inodes[j] == s0.inodes[j])
    requires SameInodes(sb, s0.view, s1.view) && |inodes| == |s1.inodes| && inodes == s1.inodes[i := inodes[i]]
    ensures forall j: nat :: j < |inodes| && j != i ==> StoredAt(sb, s1.view, inodes, j)
  {
    forall j: nat | j < |inodes| && j != i
      ensures StoredAt(sb, s1.view, inodes, j)
    {
      StoredStays(sb, s0.view, s1.view, s0.inodes, j);
    }
  }

  /** Changing an inode block changes no reference, no bit and no data block. */
  lemma UpdatedKeeps(sb: Super, view: seq<Block>, inodes: seq<Inode>, owner: map<nat, Slot>, c: nat, data: Block)
    requires Owned(sb, view, inodes, owner) && c < sb.bmapstart
    ensures Owned(sb, view[c := data], inodes, owner) && Keeps(view, inodes, view[c := data], inodes)
    ensures forall j, k: nat :: 0 <= j < |inodes| ==> Ref(view[c := data], inodes[j], k) == Ref(view, inodes[j], k)
  {
    AllSameRefs(sb, view, view[c := data], inodes, owner, 0, 0);
    forall b: nat | b < sb.size
      ensures InUse(sb, view[c := data], b) == InUse(sb, view, b)
    {
      assert sb.BBlock(b) >= sb.bmapstart;
    }
    SameOwners(sb, view, view[c := data], inodes, owner);
  }

  lemma GrownDone(sb: Super, s0: Stage, s1: Stage, s: Stage, i: nat, off: nat, src: seq<Byte>)
    requires Started(sb, s0, i, off) && off + |src| <= MAXFILE * BSIZE
    requires Owned(sb, s1.view, s1.inodes, s1.owner) && Written(s0.view, s0.inodes, s1.view, s1.inodes, i, off, src)
    requires s.owner == s1.owner
    requires s.inodes == if |src| > 0 && off + |src| > s1.inodes[i].size then s1.inodes[i := s1.inodes[i].(size := off + |src|)] else s1.inodes
    requires sb.IBlock(i) < |s1.view| && s.view == Updated(sb, s1.view, i, s.inodes[i])
    requires forall j: nat :: j < |s.inodes| ==> StoredAt(sb, s.view, s.inodes, j)
    ensures Consistent(sb, s.view, s.inodes, s.owner) && WroteAt(s0.view, s0.inodes, s.view, s.inodes, i, off, src)
    ensures forall j, k: nat :: 0 <= j < |s.inodes| ==> Ref(s.view, s.inodes[j], k) == Ref(s1.view, s1.inodes[j], k)
  {
    BlockUpdated(sb, s0, s1, s.view, i, off, src);
    WriteDone(s0.view, s0.inodes, s.view, s1.inodes, s.inodes, i, off, src);
    Resized(sb, s.view, s1.inodes, s.owner, i, off + |src|, s.inodes);
  }

  lemma Resized(sb: Super, view: seq<Block>, inodes1: seq<Inode>, owner: map<nat, Slot>, i: nat, size: Word, inodes: seq<Inode>)
    requires Owned(sb, view, inodes1, owner) && i < |inodes1| && (inodes == inodes1 || inodes == inodes1[i := inodes1[i].(size := size)])
    ensures Owned(sb, view, inodes, owner)
    ensures forall j, k: nat :: 0 <= j < |inodes| ==> Ref(view, inodes[j], k) == Ref(view, inodes1[j], k)
  {
    ResizeOwned(sb, view, inodes1, owner, i, size);
  }

  /** What has been written is not in the inode block. */
  lemma BlockUpdated(sb: Super, s0: Stage, s1: Stage, view: seq<Block>, i: nat, off: nat, src: seq<Byte>)
    requires sb.HasInodes(|s0.inodes|) && i < |s0.inodes| && s0.inodes[i].size <= MAXFILE * BSIZE && off + |src| <= MAXFILE * BSIZE
    requires Owned(sb, s1.view, s1.inodes, s1.owner) && Written(s0.view, s0.inodes, s1.view, s1.inodes, i, off, src)
    requires |view| == |s1.view| && sb.IBlock(i) < |view| && view == s1.view[sb.IBlock(i) := view[sb.IBlock(i)]]
    ensures Owned(sb, view, s1.inodes, s1.owner) && Written(s0.view, s0.inodes, view, s1.inodes, i, off, src)
    ensures forall j, k: nat :: 0 <= j < |s1.inodes| ==> Ref(view, s1.inodes[j], k) == Ref(s1.view, s1.inodes[j], k)
  {
    InodeBlock(sb, |s0.inodes|, i);
    UpdatedKeeps(sb, s1.view, s1.inodes, s1.owner, sb.IBlock(i), view[sb.IBlock(i)]);
    WrittenMapped(s0.view, s0.inodes, s1.view, s1.inodes, view, s1.inodes, i, off, src);
  }

  /** Nothing was needed, so the inode is what it was. */
  lemma NotGrown(sb: Super, s0: Stage, s: Stage, i: nat, off: nat, src: seq<Byte>)
    requires Started(sb, s0, i, off) && (|src| == 0 || off + |src| <= s0.inodes[i].size) && off + |src| <= MAXFILE * BSIZE
    requires Owned(sb, s.view, s.inodes, s.owner) && Written(s0.view, s0.inodes, s.view, s.inodes, i, off, src)
    requires GrownBy(sb, s0.view, s0.inodes, s0.owner, s.view, s.inodes, s.owner, i, Need(s0.view, s0.inodes[i], off, |src|))
    ensures Consistent(sb, s.view, s.inodes, s.owner) && WroteAt(s0.view, s0.inodes, s.view, s.inodes, i, off, src)
  {
    NothingNeeded(s0.view, s0.inodes[i], off, |src|);
    forall k | 0 <= k <= NDIRECT
      ensures s.inodes[i].addrs[k] == s0.inodes[i].addrs[k]
    {
      assert Ref(s.view, s.inodes[i], k) == Ref(s0.view, s0.inodes[i], k);
    }
    assert s.inodes[i].addrs == s0.inodes[i].addrs;
    assert s.inodes == s0.inodes;
    forall j: nat | j < |s.inodes|
      ensures StoredAt(sb, s.view, s.inodes, j)
    {
      StoredStays(sb, s0.view, s.view, s0.inodes, j);
    }
    WriteDone(s0.view, s0.inodes, s.view, s.inodes, s.inodes, i, off, src);
  }

  lemma NothingNeeded(view: seq<Block>, ino: Inode, off: nat, n: nat)
    requires Dense(view, ino) && (n == 0 || off + n <= ino.size)
    ensures Need(view, ino, off, n) == {}
  {
    forall k: nat | k < NSLOTS
      ensures !Needs(view, ino, off, n, k)
    {
      if n > 0 {
        assert (off + n - 1) / BSIZE * BSIZE < ino.size;
        if k == NDIRECT && SpanEnd(off, n) > NDIRECT {
          assert Ref(view, ino, DataSlot((off + n - 1) / BSIZE)) != 0;
        } else if InSpan(k, off, n) {
          assert Position(k) * BSIZE < ino.size && DataSlot(Position(k)) == k;
        }
      }
    }
  }

  lemma SameFilled(s0: Stage, s1: Stage, s: Stage, i: nat, need: set<nat>)
    requires Allocates(s0.view, s0.inodes, s0.owner, s1.view, s1.inodes, s1.owner, i, need) && s.owner == s1.owner
    requires |s.inodes| == |s1.inodes| && forall j, k: nat :: 0 <= j < |s.inodes| ==> Ref(s.view, s.inodes[j], k) == Ref(s1.view, s1.inodes[j], k)
    ensures Allocates(s0.view, s0.inodes, s0.owner, s.view, s.inodes, s.owner, i, need)
  {
  }

  lemma SameLog(sb: Super, view1: seq<Block>, ino1: Inode, view: seq<Block>, ino: Inode, off: nat, n: nat, need: set<nat>)
    requires forall k: nat :: Ref(view, ino, k) == Ref(view1, ino1, k)
    ensures MapLog(sb, view, ino, need) == MapLog(sb, view1, ino1, need)
    ensures DataLog(view, ino, off, n) == DataLog(view1, ino1, off, n)
  {
    assert Ref(view, ino, NDIRECT) == Ref(view1, ino1, NDIRECT);
    assert NewBlocks(view, ino, need) == NewBlocks(view1, ino1, need);
    assert Bitmaps(sb, view, ino, need) == Bitmaps(sb, view1, ino1, need);
  }

  lemma WrittenStart(view: seq<Block>, inodes: seq<Inode>, owner: map<nat, Slot>, sb: Super, i: nat, off: nat)
    requires Owned(sb, view, inodes, owner) && i < |inodes| && Dense(view, inodes[i])
    ensures Written(view, inodes, view, inodes, i, off, [])
  {
    forall p: nat | p < inodes[i].size
      ensures Ref(view, inodes[i], DataSlot(p / BSIZE)) != 0
    {
      DenseAt(view, inodes[i], p);
    }
  }

  /** How far a round goes: bn is the block it touches. */
  /** How far the next round of writei goes: to the end of the block or of the data. */
  method NextRound(off: nat, tot: nat, n: nat) returns (at: nat, bn: nat, m: nat, next: nat)
    requires tot < n && off + n <= MAXFILE * BSIZE && Aligned(off, tot, n)
    ensures at == off + tot && bn == at / BSIZE && next == tot + m
    ensures Round(off, tot, m, bn) && tot < next <= n && Aligned(off, next, n) && at % BSIZE + m <= BSIZE && at + m <= MAXFILE * BSIZE
  {
    at := off + tot;
    bn := at / BSIZE;
    m := if n - tot < BSIZE - at % BSIZE then n - tot else BSIZE - at % BSIZE;
    next := tot + m;
    assert at == bn * BSIZE + at % BSIZE;
  }

  predicate Round(off: nat, tot: nat, m: nat, bn: nat) {
    && (tot == 0 || (off + tot) % BSIZE == 0)
    && 0 < m && (off + tot) % BSIZE + m <= BSIZE && bn == (off + tot) / BSIZE < MAXFILE
  }

  lemma RefRange(sb: Super, view: seq<Block>, inodes: seq<Inode>, owner: map<nat, Slot>, i: nat, k: nat)
    requires Owned(sb, view, inodes, owner) && i < |inodes| && k < NSLOTS && Ref(view, inodes[i], k) != 0
    ensures sb.nmeta <= Ref(view, inodes[i], k) < sb.size
  {
  }

  /** One round of readi's copy loop. */
  lemma ReadChunk(view: seq<Block>, ino: Inode, off: nat, m: nat)
    requires off + m <= ino.size && off % BSIZE + m <= BSIZE && 0 < m
    requires 0 < Ref(view, ino, DataSlot(off / BSIZE)) < |view|
    ensures var b := Ref(view, ino, DataSlot(off / BSIZE));
            Content(view, ino)[off..off + m] == view[b][off % BSIZE..off % BSIZE + m]
  {
    var b := Ref(view, ino, DataSlot(off / BSIZE));
    var got, want := view[b][off % BSIZE..off % BSIZE + m], Content(view, ino)[off..off + m];
    forall q | 0 <= q < m
      ensures got[q] == want[q]
    {
      assert want[q] == ByteAt(view, ino, off + q);
      assert (off + q) / BSIZE == off / BSIZE && (off + q) % BSIZE == off % BSIZE + q;
    }
  }

  /** The file holds done at off0 and its old bytes elsewhere, as far as either reaches. */
  ghost predicate FileWritten(view0: seq<Block>, ino0: Inode, view: seq<Block>, ino: Inode, off0: nat, done: seq<Byte>) {
    forall p: nat :: p < ino0.size || off0 <= p < off0 + |done| ==>
      && Ref(view, ino, DataSlot(p / BSIZE)) != 0
      && ByteAt(view, ino, p) == if off0 <= p < off0 + |done| then done[p - off0] else ByteAt(view0, ino0, p)
  }

  /** File i as above; the data blocks of the other files are where and what they were. */
  ghost predicate Written(view0: seq<Block>, inodes0: seq<Inode>, view: seq<Block>, inodes: seq<Inode>,
                          i: nat, off0: nat, done: seq<Byte>)
  {
    && OnlyAddrs(inodes0, inodes, i) && i < |inodes|
    && FileWritten(view0, inodes0[i], view, inodes[i], off0, done)
    && OthersKept(view0, inodes0, view, inodes, i)
  }

  ghost predicate OthersKept(view0: seq<Block>, inodes0: seq<Inode>, view: seq<Block>, inodes: seq<Inode>, i: nat) {
    && |view| == |view0| && |inodes| == |inodes0|
    && forall j, bn: nat :: 0 <= j < |inodes0| && j != i && bn < MAXFILE && Ref(view0, inodes0[j], DataSlot(bn)) != 0 ==>
         && Ref(view, inodes[j], DataSlot(bn)) == Ref(view0, inodes0[j], DataSlot(bn)) < |view0|
         && view[Ref(view0, inodes0[j], DataSlot(bn))] == view0[Ref(view0, inodes0[j], DataSlot(bn))]
  }

  /** bmap does not disturb what has been written so far. */
  lemma WrittenMapped(view0: seq<Block>, inodes0: seq<Inode>, view1: seq<Block>, inodes1: seq<Inode>,
                      view: seq<Block>, inodes: seq<Inode>, i: nat, off0: nat, done: seq<Byte>)
    requires Written(view0, inodes0, view1, inodes1, i, off0, done)
    requires Keeps(view1, inodes1, view, inodes) && OnlyAddrs(inodes1, inodes, i)
    requires inodes0[i].size <= MAXFILE * BSIZE && off0 + |done| <= MAXFILE * BSIZE
    ensures Written(view0, inodes0, view, inodes, i, off0, done)
  {
    forall p: nat | p < inodes0[i].size || off0 <= p < off0 + |done|
      ensures Ref(view, inodes[i], DataSlot(p / BSIZE)) != 0 && ByteAt(view, inodes[i], p) == ByteAt(view1, inodes1[i], p)
    {
      assert p / BSIZE < MAXFILE;
    }
  }

  /** A block with chunk copied into it. */
  function Patched(data: Block, at: nat, chunk: seq<Byte>): Block
    requires at + |chunk| <= BSIZE
  {
    data[..at] + chunk + data[at + |chunk|..]
  }

  /** Storing the next chunk extends what has been written. */
  lemma WrittenStored(sb: Super, owner: map<nat, Slot>, view0: seq<Block>, inodes0: seq<Inode>,
                      view: seq<Block>, inodes: seq<Inode>, i: nat, off0: nat, done: seq<Byte>, chunk: seq<Byte>,
                      off: nat, b: nat, view': seq<Block>)
    requires Written(view0, inodes0, view, inodes, i, off0, done) && Owned(sb, view, inodes, owner)
    requires inodes0[i].size <= MAXFILE * BSIZE && off == off0 + |done| && off + |chunk| <= MAXFILE * BSIZE
    requires 0 < |chunk| && off % BSIZE + |chunk| <= BSIZE
    requires b == Ref(view, inodes[i], DataSlot(off / BSIZE)) && 0 < b < |view|
    requires view' == view[b := Patched(view[b], off % BSIZE, chunk)]
    ensures Owned(sb, view', inodes, owner) && Written(view0, inodes0, view', inodes, i, off0, done + chunk)
  {
    StoreData(sb, view, inodes, owner, i, off / BSIZE, view'[b]);
    assert view' == view[b := view'[b]];
    FileStored(view0, inodes0[i], view, view', inodes[i], off0, done, chunk, off, b);
    OthersStored(view0, inodes0, view, inodes, i, b, view'[b]);
  }

  lemma FileStored(view0: seq<Block>, ino0: Inode, view: seq<Block>, view': seq<Block>, ino: Inode,
                   off0: nat, done: seq<Byte>, chunk: seq<Byte>, off: nat, b: nat)
    requires FileWritten(view0, ino0, view, ino, off0, done) && |view'| == |view| && off == off0 + |done|
    requires ino0.size <= MAXFILE * BSIZE && off + |chunk| <= MAXFILE * BSIZE
    requires 0 < |chunk| && off % BSIZE + |chunk| <= BSIZE
    requires b == Ref(view, ino, DataSlot(off / BSIZE)) && 0 < b < |view|
    requires view' == view[b := Patched(view[b], off % BSIZE, chunk)]
    requires forall k: nat :: Ref(view', ino, k) == Ref(view, ino, k)
    requires forall m: nat :: m < MAXFILE && m != off / BSIZE ==> Ref(view, ino, DataSlot(m)) != b
    ensures FileWritten(view0, ino0, view', ino, off0, done + chunk)
  {
    PatchedBytes(view, view', ino, off, chunk);
    var all := done + chunk;
    forall p: nat | p < ino0.size || off0 <= p < off0 + |all|
      ensures Ref(view', ino, DataSlot(p / BSIZE)) != 0
      ensures ByteAt(view', ino, p) == if off0 <= p < off0 + |all| then all[p - off0] else ByteAt(view0, ino0, p)
    {
      assert p / BSIZE < MAXFILE;
    }
  }

  lemma OthersStored(view0: seq<Block>, inodes0: seq<Inode>, view: seq<Block>, inodes: seq<Inode>, i: nat, b: nat, data: Block)
    requires OthersKept(view0, inodes0, view, inodes, i) && b < |view|
    requires forall j, k: nat :: 0 <= j < |inodes| ==> Ref(view[b := data], inodes[j], k) == Ref(view, inodes[j], k)
    requires forall j, m: nat :: 0 <= j < |inodes| && m < MAXFILE && j != i ==> Ref(view, inodes[j], DataSlot(m)) != b
    ensures OthersKept(view0, inodes0, view[b := data], inodes, i)
  {
  }

  /** Within one file: the patched bytes change, the others stay. */
  lemma PatchedBytes(view: seq<Block>, view': seq<Block>, ino: Inode, off: nat, chunk: seq<Byte>)
    requires off % BSIZE + |chunk| <= BSIZE && 0 < |chunk| && |view'| == |view|
    requires 0 < Ref(view, ino, DataSlot(off / BSIZE)) < |view|
    requires var b := Ref(view, ino, DataSlot(off / BSIZE)); view' == view[b := Patched(view[b], off % BSIZE, chunk)]
    requires forall k: nat :: Ref(view', ino, k) == Ref(view, ino, k)
    requires forall m: nat :: m < MAXFILE && m != off / BSIZE ==>
               Ref(view, ino, DataSlot(m)) != Ref(view, ino, DataSlot(off / BSIZE))
    ensures forall p: nat :: p / BSIZE < MAXFILE ==>
              ByteAt(view', ino, p) == if off <= p < off + |chunk| then chunk[p - off] else ByteAt(view, ino, p)
    ensures forall p: nat :: off <= p < off + |chunk| ==> p / BSIZE == off / BSIZE
  {
    forall p: nat | off <= p < off + |chunk|
      ensures p / BSIZE == off / BSIZE && p % BSIZE == off % BSIZE + (p - off)
    {
    }
    forall p: nat | p / BSIZE == off / BSIZE && !(off <= p < off + |chunk|)
      ensures p % BSIZE < off % BSIZE || off % BSIZE + |chunk| <= p % BSIZE
    {
    }
  }

  /** When the loop is done and the size has been set. */
  lemma WrittenContent(view0: seq<Block>, inodes0: seq<Inode>, view: seq<Block>, ino: Inode, i: nat, off0: nat, src: seq<Byte>)
    requires i < |inodes0| && off0 <= inodes0[i].size <= MAXFILE * BSIZE && off0 + |src| <= MAXFILE * BSIZE
    requires ino.size == if off0 + |src| > inodes0[i].size then off0 + |src| else inodes0[i].size
    requires FileWritten(view0, inodes0[i], view, ino, off0, src)
    ensures Dense(view, ino) && Content(view, ino) == Spliced(Content(view0, inodes0[i]), off0, src)
  {
    forall bn: nat | bn * BSIZE < ino.size
      ensures Ref(view, ino, DataSlot(bn)) != 0
    {
      assert bn * BSIZE / BSIZE == bn;
    }
    var was, now := Content(view0, inodes0[i]), Content(view, ino);
    forall p: nat | p < |now|
      ensures now[p] == Spliced(was, off0, src)[p]
    {
      assert now[p] == ByteAt(view, ino, p);
    }
  }

  /** The loop and the new size together: file i has src spliced in, the others are as before. */
  lemma WriteDone(view0: seq<Block>, inodes0: seq<Inode>, view: seq<Block>, inodes1: seq<Inode>, inodes: seq<Inode>,
                  i: nat, off: nat, src: seq<Byte>)
    requires Written(view0, inodes0, view, inodes1, i, off, src) && off <= inodes0[i].size && off + |src| <= MAXFILE * BSIZE
    requires forall j :: 0 <= j < |inodes0| ==> Dense(view0, inodes0[j])
    requires inodes == if |src| > 0 && off + |src| > inodes1[i].size then inodes1[i := inodes1[i].(size := off + |src|)] else inodes1
    ensures forall j :: 0 <= j < |inodes| ==> Dense(view, inodes[j])
    ensures Content(view, inodes[i]) == Spliced(Content(view0, inodes0[i]), off, src)
    ensures forall j :: 0 <= j < |inodes| && j != i ==>
              inodes[j] == inodes0[j] && Content(view, inodes[j]) == Content(view0, inodes0[j])
  {
    SizeIgnored(view0, inodes0[i], view, inodes1[i], off, src, inodes[i].size);
    WrittenContent(view0, inodes0, view, inodes[i], i, off, src);
    forall j | 0 <= j < |inodes| && j != i
      ensures Dense(view, inodes[j]) && Content(view, inodes[j]) == Content(view0, inodes0[j])
    {
      OthersContent(view0, inodes0, view, inodes, i, j);
    }
  }

  lemma SizeIgnored(view0: seq<Block>, ino0: Inode, view: seq<Block>, ino: Inode, off: nat, src: seq<Byte>, size: Word)
    requires FileWritten(view0, ino0, view, ino, off, src)
    ensures FileWritten(view0, ino0, view, ino.(size := size), off, src)
  {
    assert forall k: nat :: Ref(view, ino.(size := size), k) == Ref(view, ino, k);
    assert forall p: nat :: ByteAt(view, ino.(size := size), p) == ByteAt(view, ino, p);
  }

  lemma OthersContent(view0: seq<Block>, inodes0: seq<Inode>, view: seq<Block>, inodes: seq<Inode>, i: nat, j: nat)
    requires OthersKept(view0, inodes0, view, inodes, i) && j < |inodes0| && j != i && inodes[j] == inodes0[j]
    requires Dense(view0, inodes0[j])
    ensures Dense(view, inodes[j]) && Content(view, inodes[j]) == Content(view0, inodes0[j])
  {
    forall bn: nat | bn * BSIZE < inodes[j].size
      ensures bn < MAXFILE && Ref(view, inodes[j], DataSlot(bn)) == Ref(view0, inodes0[j], DataSlot(bn)) != 0
    {
    }
    forall p: nat | p < inodes[j].size
      ensures ByteAt(view, inodes[j], p) == ByteAt(view0, inodes0[j], p)
    {
      assert p / BSIZE * BSIZE <= p;
    }
  }

  lemma DenseAt(view: seq<Block>, ino: Inode, p: nat)
    requires Dense(view, ino) && p < ino.size
    ensures p / BSIZE < MAXFILE && Ref(view, ino, DataSlot(p / BSIZE)) != 0
  {
    assert p / BSIZE * BSIZE <= p;
  }

  lemma Append(c: seq<Byte>, i: nat, j: nat, k: nat, x: seq<Byte>, y: seq<Byte>)
    requires i <= j <= k <= |c| && x == c[i..j] && y == c[j..k]
    ensures x + y == c[i..k]
  {
  }

  lemma KeepsSame(sb: Super, view: seq<Block>, inodes: seq<Inode>, owner: map<nat, Slot>)
    requires Owned(sb, view, inodes, owner)
    ensures Keeps(view, inodes, view, inodes)
  {
  }

  lemma KeepsChain(v0: seq<Block>, i0: seq<Inode>, v1: seq<Block>, i1: seq<Inode>, v2: seq<Block>, i2: seq<Inode>)
    requires Keeps(v0, i0, v1, i1) && Keeps(v1, i1, v2, i2)
    ensures Keeps(v0, i0, v2, i2)
  {
  }

  // ---- filewrite ----

  datatype FileResult = Count | MinusOne | Panicked

  function ChunkSize(left: nat): nat {
    if left > CHUNK then CHUNK else left
  }

  /** filewrite stops at foff: it never got going, or the next chunk would outgrow a file. */
  predicate ChunkRefused(ino: Inode, off: nat, foff: nat, n: nat) {
    foff < off + n && (off > ino.size || foff + ChunkSize(off + n - foff) > MAXFILE * BSIZE)
  }

  /** The budget of filewrite's comment: no chunk logs more than MAXOPBLOCKS blocks. */
  lemma ChunkCost(off: nat, n: nat)
    requires n <= CHUNK
    ensures WriteCost(off, n) <= LogMachine.MAXOPBLOCKS
  {
  }

  lemma SplicedTwice(c: seq<Byte>, off: nat, addr: seq<Byte>, d: nat, e: nat, foff: nat, first: seq<Byte>, second: seq<Byte>, both: seq<Byte>)
    requires 0 < d <= e <= |addr| && foff == off + d && off <= |c| && first == addr[..d] && second == addr[d..e] && both == addr[..e]
    ensures foff <= |Spliced(c, off, first)| && Spliced(Spliced(c, off, first), foff, second) == Spliced(c, off, both)
  {
    var s1 := Spliced(c, off, first);
    assert s1[..foff] == c[..off] + first;
    assert first + second == both;
  }

  /** A transaction within the budget of begin_op, on blocks behind the log. */
  ghost predicate Txn(sb: Super, view: seq<Block>, view': seq<Block>, ws: seq<LogMachine.Write>) {
    view' == LogMachine.Apply(view, ws) && ws != [] && Within(sb, ws)
  }

  ghost predicate Within(sb: Super, ws: seq<LogMachine.Write>) {
    && |Transactions.Listed(ws)| <= LogMachine.MAXOPBLOCKS
    && forall t :: 0 <= t < |ws| ==> sb.inodestart <= ws[t].0 < sb.size
  }

  /** The list of a trace has each logged block once. */
  lemma {:induction false} ListedSize(ws: seq<LogMachine.Write>, logged: set<nat>)
    requires forall b: nat :: b in logged <==> b in Transactions.Listed(ws)
    ensures |Transactions.Listed(ws)| == |logged|
    ensures forall t :: 0 <= t < |ws| ==> ws[t].0 in logged
    ensures logged != {} ==> ws != []
    decreases |ws|
  {
    if ws != [] {
      var before, b: nat := ws[..|ws| - 1], ws[|ws| - 1].0;
      var some := set c | c in logged && c in Transactions.Listed(before);
      ListedSize(before, some);
      if b in Transactions.Listed(before) {
        assert some == logged;
      } else {
        assert some == logged - {b};
      }
    } else {
      assert logged == {};
    }
  }

  /** Blocks taken, their bitmap blocks, the indirect block and the data blocks. */
  lemma PartRange(sb: Super, s: Stage, i: nat, got: set<nat>, off: nat, n: nat, b: nat)
    requires Owned(sb, s.view, s.inodes, s.owner) && i < |s.inodes|
    requires b in MapLog(sb, s.view, s.inodes[i], got) + DataLog(s.view, s.inodes[i], off, n)
    requires forall k :: k in got || k in Span(off, n) ==> k < NSLOTS && Ref(s.view, s.inodes[i], k) != 0
    ensures sb.inodestart <= b < sb.size
  {
    forall k | k in got || k in Span(off, n)
      ensures sb.nmeta <= Ref(s.view, s.inodes[i], k) < sb.size
    {
      RefRange(sb, s.view, s.inodes, s.owner, i, k);
    }
    if exists k :: k in got && k > NDIRECT {
      IndirectBlocks(sb, s.view, s.inodes, s.owner, 0, 0, i);
    }
  }

  lemma LogRange(sb: Super, s0: Stage, s: Stage, i: nat, off: nat, n: nat, b: nat)
    requires Consistent(sb, s.view, s.inodes, s.owner) && i < |s.inodes| && i < |s0.inodes|
    requires b in WriteLog(sb, s0.view, s0.inodes[i], s.view, s.inodes[i], i, off, n)
    requires forall k :: k in Need(s0.view, s0.inodes[i], off, n) || k in Span(off, n) ==> k < NSLOTS && Ref(s.view, s.inodes[i], k) != 0
    ensures sb.inodestart <= b < sb.size
  {
    InodeBlock(sb, |s.inodes|, i);
    if b != sb.IBlock(i) {
      PartRange(sb, s, i, Need(s0.view, s0.inodes[i], off, n), off, n, b);
    }
  }

  /** filewrite, transaction by transaction: every stage is a consistent file system in which the
      first done bytes have been written, and each transaction leads from one stage to the next. */
  ghost predicate Chronicle(sb: Super, stages: seq<Stage>, txns: seq<seq<LogMachine.Write>>, i: nat, off: nat, addr: seq<Byte>) {
    && |stages| == |txns| + 1 && stages[0].done == 0
    && (forall t :: 0 <= t < |stages| ==> Reached(sb, stages[0], stages[t], i, off, addr))
    && (forall t :: 0 <= t < |txns| ==> Leads(sb, stages[t], stages[t + 1], txns[t], |addr|))
  }

  ghost predicate Leads(sb: Super, s: Stage, s': Stage, ws: seq<LogMachine.Write>, n: nat) {
    Txn(sb, s.view, s'.view, ws) && s.done < n && s'.done == s.done + ChunkSize(n - s.done)
  }

  ghost predicate Reached(sb: Super, s0: Stage, s: Stage, i: nat, off: nat, addr: seq<Byte>) {
    && Consistent(sb, s.view, s.inodes, s.owner) && s.done <= |addr| && i < |s0.inodes| == |s.inodes|
    && if s.done == 0 then SameFiles(s0, s) else WroteAt(s0.view, s0.inodes, s.view, s.inodes, i, off, addr[..s.done])
  }

  ghost predicate SameFiles(s0: Stage, s: Stage) {
    s.inodes == s0.inodes && forall j :: 0 <= j < |s.inodes| ==> Content(s.view, s.inodes[j]) == Content(s0.view, s0.inodes[j])
  }

  lemma ChronicleStart(sb: Super, s: Stage, i: nat, off: nat, addr: seq<Byte>)
    requires Consistent(sb, s.view, s.inodes, s.owner) && i < |s.inodes| && s.done == 0
    ensures Chronicle(sb, [s], [], i, off, addr)
  {
  }

  lemma ReachedNext(sb: Super, s0: Stage, last: Stage, s: Stage, i: nat, off: nat, addr: seq<Byte>, foff: nat, n1: nat, src: seq<Byte>)
    requires Reached(sb, s0, last, i, off, addr) && foff == off + last.done
    requires s.done == last.done + n1 <= |addr| && 0 < n1 && src == addr[last.done..s.done] && Consistent(sb, s.view, s.inodes, s.owner)
    requires WroteAt(last.view, last.inodes, s.view, s.inodes, i, foff, src)
    ensures Reached(sb, s0, s, i, off, addr)
  {
    if last.done > 0 {
      SplicedTwice(Content(s0.view, s0.inodes[i]), off, addr, last.done, s.done, foff, addr[..last.done], src, addr[..s.done]);
    } else {
      assert addr[..s.done] == src;
    }
  }

  /** One more transaction. */
  lemma Extended(sb: Super, stages: seq<Stage>, txns: seq<seq<LogMachine.Write>>, i: nat, off: nat, addr: seq<Byte>,
                 n: nat, next: nat, foff: nat, n1: nat, src: seq<Byte>, s: Stage, ws: seq<LogMachine.Write>)
    returns (stages': seq<Stage>, txns': seq<seq<LogMachine.Write>>)
    requires Chronicle(sb, stages, txns, i, off, addr) && stages[|txns|].done == n < |addr| && foff == off + n
    requires n1 == ChunkSize(|addr| - n) && next == n + n1 && src == addr[n..next]
    requires Consistent(sb, s.view, s.inodes, s.owner) && s.done == next && Txn(sb, stages[|txns|].view, s.view, ws)
    requires WroteAt(stages[|txns|].view, stages[|txns|].inodes, s.view, s.inodes, i, foff, src)
    ensures Chronicle(sb, stages', txns', i, off, addr) && stages'[|txns'|] == s && stages'[0] == stages[0]
  {
    var last := stages[|txns|];
    assert Reached(sb, stages[0], last, i, off, addr);
    ReachedNext(sb, stages[0], last, s, i, off, addr, foff, n1, src);
    assert Leads(sb, last, s, ws, |addr|);
    stages', txns' := stages + [s], txns + [ws];
    forall t | 0 <= t < |txns'|
      ensures Leads(sb, stages'[t], stages'[t + 1], txns'[t], |addr|)
    {
      if t < |txns| {
        assert Leads(sb, stages[t], stages[t + 1], txns[t], |addr|);
      }
    }
  }

  lemma RefusedHere(sb: Super, stages: seq<Stage>, txns: seq<seq<LogMachine.Write>>, i: nat, off: nat, addr: seq<Byte>, n: nat, foff: nat, n1: nat)
    requires Chronicle(sb, stages, txns, i, off, addr) && stages[|txns|].done == n < |addr| && foff == off + n
    requires n1 == ChunkSize(|addr| - n) && (foff > stages[|txns|].inodes[i].size || foff + n1 > MAXFILE * BSIZE)
    ensures ChunkRefused(stages[0].inodes[i], off, foff, |addr|)
  {
    var s0, last := stages[0], stages[|txns|];
    assert Reached(sb, s0, last, i, off, addr);
    if last.done > 0 {
      assert |Content(last.view, last.inodes[i])| >= foff;
    }
  }

  /** After a write the slots it spans and needed are filled. */
  lemma SpanMapped(view0: seq<Block>, ino0: Inode, view: seq<Block>, ino: Inode, off: nat, n: nat, k: nat)
    requires Dense(view, ino) && off + n <= ino.size && (k in Need(view0, ino0, off, n) || k in Span(off, n))
    ensures k < NSLOTS && Ref(view, ino, k) != 0
  {
    if n > 0 {
      assert (off + n - 1) / BSIZE * BSIZE < ino.size;
      if k == NDIRECT {
        assert Ref(view, ino, DataSlot((off + n - 1) / BSIZE)) != 0;
      } else {
        assert Position(k) * BSIZE < ino.size && DataSlot(Position(k)) == k;
      }
    }
  }

  lemma TxnLogged(sb: Super, s0: Stage, s: Stage, i: nat, off: nat, n: nat, ws: seq<LogMachine.Write>, logged: set<nat>)
    requires Consistent(sb, s.view, s.inodes, s.owner) && i < |s.inodes| && i < |s0.inodes| && 0 < n && off + n <= s.inodes[i].size
    requires logged == WriteLog(sb, s0.view, s0.inodes[i], s.view, s.inodes[i], i, off, n) && |logged| <= LogMachine.MAXOPBLOCKS
    requires s.view == LogMachine.Apply(s0.view, ws) && |Transactions.Listed(ws)| == |logged|
    requires (forall t :: 0 <= t < |ws| ==> ws[t].0 in logged) && (logged != {} ==> ws != [])
    ensures Txn(sb, s0.view, s.view, ws)
  {
    forall k | k in Need(s0.view, s0.inodes[i], off, n) || k in Span(off, n)
      ensures k < NSLOTS && Ref(s.view, s.inodes[i], k) != 0
    {
      SpanMapped(s0.view, s0.inodes[i], s.view, s.inodes[i], off, n, k);
    }
    forall t | 0 <= t < |ws|
      ensures sb.inodestart <= ws[t].0 < sb.size
    {
      LogRange(sb, s0, s, i, off, n, ws[t].0);
    }
    SomethingLogged(s.view, s.inodes[i], off, n);
  }

  lemma SomethingLogged(view: seq<Block>, ino: Inode, off: nat, n: nat)
    requires 0 < n && Dense(view, ino) && off + n <= ino.size
    ensures DataLog(view, ino, off, n) != {}
  {
    DenseAt(view, ino, off);
    assert off / BSIZE <= (off + n - 1) / BSIZE;
    assert DataSlot(off / BSIZE) in Span(off, n);
    assert Ref(view, ino, DataSlot(off / BSIZE)) as nat in DataLog(view, ino, off, n);
  }

  // ---- itrunc ----

  /** Blocks of inode i may have been given up; everything else is as it was. */
  ghost predicate Trimmed(sb: Super, view0: seq<Block>, inodes0: seq<Inode>, owner0: map<nat, Slot>,
                          view: seq<Block>, inodes: seq<Inode>, owner: map<nat, Slot>, i: nat)
  {
    && |view| == |view0| && |inodes| == |inodes0| && SameInodes(sb, view0, view)
    && (forall j :: 0 <= j < |inodes0| && j != i ==> inodes[j] == inodes0[j])
    && (forall c :: sb.nmeta <= c < |view0| ==> view[c] == view0[c])
    && (forall b :: b in owner ==> b in owner0 && owner[b] == owner0[b])
    && (forall b :: b in owner0 && owner0[b].inum != i ==> b in owner)
  }

  lemma TrimmedMark(sb: Super, view: seq<Block>, inodes: seq<Inode>, owner: map<nat, Slot>, gone: nat, skip: nat, i: nat, b: nat, ino: Inode)
    requires OwnedBut(sb, view, inodes, owner, gone, skip) && b in owner && owner[b].inum == i
    ensures b < sb.size
    ensures Trimmed(sb, view, inodes, owner, Mark(sb, view, b, false), inodes[i := ino], owner - {b}, i)
    ensures inodes[i := inodes[i]] == inodes
  {
    var marked := Unmark(sb, view, inodes, owner, gone, skip, b);
  }

  lemma TrimmedChain(sb: Super, v0: seq<Block>, i0: seq<Inode>, o0: map<nat, Slot>, v1: seq<Block>, i1: seq<Inode>, o1: map<nat, Slot>,
                     v2: seq<Block>, i2: seq<Inode>, o2: map<nat, Slot>, i: nat)
    requires Trimmed(sb, v0, i0, o0, v1, i1, o1, i) && Trimmed(sb, v1, i1, o1, v2, i2, o2, i)
    ensures Trimmed(sb, v0, i0, o0, v2, i2, o2, i)
  {
  }

  lemma TrimmedOthers(sb: Super, view0: seq<Block>, inodes0: seq<Inode>, owner0: map<nat, Slot>,
                      view: seq<Block>, inodes: seq<Inode>, owner: map<nat, Slot>, i: nat)
    requires Owned(sb, view0, inodes0, owner0) && Trimmed(sb, view0, inodes0, owner0, view, inodes, owner, i)
    ensures OthersKept(view0, inodes0, view, inodes, i)
  {
    forall j, bn: nat | 0 <= j < |inodes0| && j != i && bn < MAXFILE && Ref(view0, inodes0[j], DataSlot(bn)) != 0
      ensures Ref(view, inodes[j], DataSlot(bn)) == Ref(view0, inodes0[j], DataSlot(bn)) < |view0|
      ensures view[Ref(view0, inodes0[j], DataSlot(bn))] == view0[Ref(view0, inodes0[j], DataSlot(bn))]
    {
      if inodes0[j].addrs[NDIRECT] != 0 {
        IndirectBlocks(sb, view0, inodes0, owner0, 0, 0, j);
      }
      SameRefs(view0, view, inodes0[j]);
      RefRange(sb, view0, inodes0, owner0, j, DataSlot(bn));
    }
  }

  lemma NoneLeft(sb: Super, view: seq<Block>, inodes: seq<Inode>, owner: map<nat, Slot>, i: nat)
    requires Owned(sb, view, inodes, owner) && i < |inodes| && forall k :: 0 <= k <= NDIRECT ==> inodes[i].addrs[k] == 0
    ensures forall b :: b in owner ==> owner[b].inum != i
  {
    assert forall k: nat :: Ref(view, inodes[i], k) == 0 || k > NDIRECT;
  }

  lemma ResizeOwned(sb: Super, view: seq<Block>, inodes: seq<Inode>, owner: map<nat, Slot>, i: nat, size: Word)
    requires Owned(sb, view, inodes, owner) && i < |inodes|
    ensures Owned(sb, view, inodes[i := inodes[i].(size := size)], owner)
  {
    assert forall k: nat :: Ref(view, inodes[i].(size := size), k) == Ref(view, inodes[i], k);
  }

  lemma TruncDone(sb: Super, s0: Stage, s1: Stage, s: Stage, i: nat)
    requires Consistent(sb, s0.view, s0.inodes, s0.owner) && i < |s0.inodes|
    requires Owned(sb, s1.view, s1.inodes, s1.owner) && Trimmed(sb, s0.view, s0.inodes, s0.owner, s1.view, s1.inodes, s1.owner, i)
    requires forall k :: 0 <= k <= NDIRECT ==> s1.inodes[i].addrs[k] == 0
    requires s.owner == s1.owner && s.inodes == s1.inodes[i := s1.inodes[i].(size := 0)]
    requires sb.IBlock(i) < |s1.view| && s.view == Updated(sb, s1.view, i, s.inodes[i])
    requires forall j: nat :: j < |s.inodes| ==> StoredAt(sb, s.view, s.inodes, j)
    ensures Consistent(sb, s.view, s.inodes, s.owner)
    ensures forall j :: 0 <= j < |s.inodes| && j != i ==> Content(s.view, s.inodes[j]) == Content(s0.view, s0.inodes[j])
    ensures forall b: nat :: b < sb.size ==>
              (InUse(sb, s.view, b) <==> InUse(sb, s0.view, b) && !(b in s0.owner && s0.owner[b].inum == i))
  {
    InodeBlock(sb, |s0.inodes|, i);
    UpdatedKeeps(sb, s1.view, s1.inodes, s1.owner, sb.IBlock(i), s.view[sb.IBlock(i)]);
    assert s.view == s1.view[sb.IBlock(i) := s.view[sb.IBlock(i)]];
    ResizeOwned(sb, s.view, s1.inodes, s.owner, i, 0);
    TrimmedOthers(sb, s0.view, s0.inodes, s0.owner, s1.view, s1.inodes, s1.owner, i);
    KeptThen(s0.view, s0.inodes, s1.view, s1.inodes, s.view, i);
    NoneLeft(sb, s.view, s.inodes, s.owner, i);
    forall j | 0 <= j < |s.inodes| && j != i
      ensures Dense(s.view, s.inodes[j]) && Content(s.view, s.inodes[j]) == Content(s0.view, s0.inodes[j])
    {
      OthersContent(s0.view, s0.inodes, s.view, s1.inodes, i, j);
    }
  }

  lemma KeptThen(view0: seq<Block>, inodes0: seq<Inode>, view1: seq<Block>, inodes1: seq<Inode>, view: seq<Block>, i: nat)
    requires OthersKept(view0, inodes0, view1, inodes1, i) && Keeps(view1, inodes1, view, inodes1)
    ensures OthersKept(view0, inodes0, view, inodes1, i)
  {
  }
}
