/** Physical pages, who holds them, and the two-level page tables stored in them: the values
    that kalloc.c and vm.c work on, and what one primitive change keeps. */
module Pages {

  /** A 32-bit word as its upper 20 and lower 12 bits: PTE_ADDR and PTE_FLAGS. */
  datatype Word = Word(frame: nat, flags: nat)

  type Page = p: seq<Word> | |p| == 1024 witness seq(1024, i => Word(0, 0))

  const ZERO := Word(0, 0)

  /** Where the user half of a page directory ends: KERNBASE is entry 512. */
  const USER_TABLES: nat := 512

  function ZeroPage(): Page {
    seq(1024, i => ZERO)
  }

  predicate Present(w: Word) {
    w.flags % 2 == 1
  }

  /** What a page in use is for. Held: given out by kalloc and not part of an address space. */
  datatype Use = Held | Dir | Table(dir: nat, i: nat) | User(dir: nat, i: nat, j: nat)

  /** Physical memory, the use of each page given out, and the list of free pages. */
  datatype Ram = Ram(mem: seq<Page>, owner: map<nat, Use>, free: seq<nat>)

  ghost predicate Is(r: Ram, f: nat, u: Use) {
    f in r.owner && r.owner[f] == u
  }

  /** P2V of a page, and the null pointer at the end of the list. */
  function Pointer(free: seq<nat>): Word {
    if free == [] then ZERO else Word(0x80000 + free[0], 0)
  }

  /** The entry for page j of table i, zero if it is not present. */
  function Pte(mem: seq<Page>, d: nat, i: nat, j: nat): Word
    requires i < 1024 && j < 1024
  {
    if d >= |mem| || !Present(mem[d][i]) || mem[d][i].frame >= |mem| || !Present(mem[mem[d][i].frame][j])
    then ZERO else mem[mem[d][i].frame][j]
  }

  // ---- well-formed memory ----

  /** Free pages and pages in use partition the frames lo .. |mem|. */
  ghost predicate Partition(r: Ram, lo: nat) {
    && 0 < lo
    && (forall f: nat :: f in r.owner ==> lo <= f < |r.mem| && f !in r.free)
    && (forall k: nat :: k < |r.free| ==> lo <= r.free[k] < |r.mem|)
    && (forall k: nat, l: nat :: k < l < |r.free| ==> r.free[k] != r.free[l])
    && (forall f: nat :: lo <= f < |r.mem| ==> f in r.owner || f in r.free)
  }

  ghost predicate Chained(r: Ram) {
    forall k: nat :: k < |r.free| && r.free[k] < |r.mem| ==> r.mem[r.free[k]][0] == Pointer(r.free[k + 1..])
  }

  /** Every present directory entry leads to the table made for it. */
  ghost predicate DirsOk(r: Ram) {
    forall d: nat, i: nat :: Is(r, d, Dir) && d < |r.mem| && i < 1024 && Present(r.mem[d][i]) ==>
      Is(r, r.mem[d][i].frame, Table(d, i))
  }

  ghost predicate TablesOk(r: Ram) {
    forall t: nat :: t in r.owner && r.owner[t].Table? ==> TableBack(r, t, r.owner[t].dir, r.owner[t].i)
  }

  ghost predicate TableBack(r: Ram, t: nat, d: nat, i: nat) {
    Is(r, d, Dir) && d < |r.mem| && i < 1024 && Present(r.mem[d][i]) && r.mem[d][i].frame == t
  }

  /** Every user entry leads to the page given to it. */
  ghost predicate EntriesOk(r: Ram) {
    forall d: nat, i: nat, j: nat :: Is(r, d, Dir) && i < USER_TABLES && j < 1024 && Present(Pte(r.mem, d, i, j)) ==>
      Is(r, Pte(r.mem, d, i, j).frame, User(d, i, j))
  }

  ghost predicate UserBack(r: Ram, f: nat, d: nat, i: nat, j: nat) {
    && Is(r, d, Dir) && i < USER_TABLES && j < 1024
    && Present(Pte(r.mem, d, i, j)) && Pte(r.mem, d, i, j).frame == f
  }

  ghost predicate UsersOk(r: Ram) {
    forall f: nat :: f in r.owner && r.owner[f].User? ==>
      UserBack(r, f, r.owner[f].dir, r.owner[f].i, r.owner[f].j)
  }

  ghost predicate Valid(r: Ram, lo: nat) {
    Partition(r, lo) && Chained(r) && DirsOk(r) && TablesOk(r) && EntriesOk(r) && UsersOk(r)
  }

  // ---- primitive changes ----

  function Take(r: Ram): Ram
    requires r.free != []
  {
    r.(owner := r.owner[r.free[0] := Held], free := r.free[1..])
  }

  lemma TakeValid(r: Ram, lo: nat)
    requires Valid(r, lo) && r.free != []
    ensures Valid(Take(r), lo) && Is(Take(r), r.free[0], Held) && r.free[0] !in r.owner
  {
  }

  /** Writing a page that is no directory and no table changes no entry. */
  lemma PtesKept(r: Ram, mem: seq<Page>)
    requires DirsOk(r) && |mem| == |r.mem|
    requires forall f: nat :: f in r.owner && (r.owner[f].Dir? || r.owner[f].Table?) && f < |mem| ==> mem[f] == r.mem[f]
    ensures forall d: nat, i: nat, j: nat :: Is(r, d, Dir) && i < 1024 && j < 1024 ==>
      Pte(mem, d, i, j) == Pte(r.mem, d, i, j)
  {
    forall d: nat, i: nat, j: nat | Is(r, d, Dir) && i < 1024 && j < 1024
      ensures Pte(mem, d, i, j) == Pte(r.mem, d, i, j)
    {
      if d < |mem| && Present(r.mem[d][i]) {
        assert Is(r, r.mem[d][i].frame, Table(d, i));
      }
    }
  }

  function Fill(r: Ram, f: nat, p: Page): Ram
    requires f < |r.mem|
  {
    r.(mem := r.mem[f := p])
  }

  lemma FillValid(r: Ram, lo: nat, f: nat, p: Page)
    requires Valid(r, lo) && Is(r, f, Held)
    ensures Valid(Fill(r, f, p), lo)
    ensures forall d: nat, i: nat, j: nat :: Is(r, d, Dir) && i < 1024 && j < 1024 ==>
      Pte(Fill(r, f, p).mem, d, i, j) == Pte(r.mem, d, i, j)
  {
    PtesKept(r, Fill(r, f, p).mem);
  }

  /** kfree: fill with ones, then link in front. */
  function Junk(free: seq<nat>): Page {
    seq(1024, i => Word(0x01010, 0x101))[0 := Pointer(free)]
  }

  function Release(r: Ram, f: nat): Ram
    requires f < |r.mem|
  {
    Ram(r.mem[f := Junk(r.free)], r.owner - {f}, [f] + r.free)
  }

  lemma ReleasePartition(r: Ram, lo: nat, f: nat)
    requires Partition(r, lo) && Is(r, f, Held)
    ensures Partition(Release(r, f), lo)
  {
    var s := Release(r, f);
    assert forall g: nat :: g in s.free <==> g == f || g in r.free;
  }

  lemma ReleaseChained(r: Ram, lo: nat, f: nat)
    requires Partition(r, lo) && Chained(r) && Is(r, f, Held)
    ensures Chained(Release(r, f))
  {
    var s := Release(r, f);
    forall k: nat | k < |s.free| && s.free[k] < |s.mem|
      ensures s.mem[s.free[k]][0] == Pointer(s.free[k + 1..])
    {
      if k == 0 {
        assert s.free[1..] == r.free;
      } else {
        assert s.free[k] == r.free[k - 1] && s.free[k + 1..] == r.free[k..];
      }
    }
  }

  lemma ReleaseTables(r: Ram, s: Ram, lo: nat, f: nat)
    requires Valid(r, lo) && Is(r, f, Held) && s.owner == r.owner - {f} && |s.mem| == |r.mem|
    requires forall g: nat :: g < |r.mem| && g != f ==> s.mem[g] == r.mem[g]
    ensures DirsOk(s) && TablesOk(s) && EntriesOk(s) && UsersOk(s)
    ensures forall d: nat, i: nat, j: nat :: Is(r, d, Dir) && i < 1024 && j < 1024 ==>
      Pte(s.mem, d, i, j) == Pte(r.mem, d, i, j)
  {
    PtesKept(r, s.mem);
  }

  lemma ReleaseValid(r: Ram, lo: nat, f: nat)
    requires Valid(r, lo) && Is(r, f, Held)
    ensures Valid(Release(r, f), lo)
    ensures forall d: nat, i: nat, j: nat :: Is(r, d, Dir) && i < 1024 && j < 1024 ==>
      Pte(Release(r, f).mem, d, i, j) == Pte(r.mem, d, i, j)
  {
    ReleasePartition(r, lo, f);
    ReleaseChained(r, lo, f);
    ReleaseTables(r, Release(r, f), lo, f);
  }

  /** walkpgdir: a cleared page becomes table i of directory d. */
  function AddTable(r: Ram, d: nat, i: nat, t: nat): Ram
    requires d < |r.mem| && i < 1024
  {
    r.(mem := r.mem[d := r.mem[d][i := Word(t, 7)]], owner := r.owner[t := Table(d, i)])
  }

  lemma AddTablePtes(r: Ram, lo: nat, d: nat, i: nat, t: nat, e: nat, x: nat, y: nat)
    requires Valid(r, lo) && Is(r, d, Dir) && i < 1024 && !Present(r.mem[d][i])
    requires Is(r, t, Held) && r.mem[t] == ZeroPage()
    requires Is(r, e, Dir) && x < 1024 && y < 1024
    ensures Pte(AddTable(r, d, i, t).mem, e, x, y) == Pte(r.mem, e, x, y)
  {
    if Present(r.mem[e][x]) {
      assert Is(r, r.mem[e][x].frame, Table(e, x));
    }
  }

  lemma AddTableValid(r: Ram, lo: nat, d: nat, i: nat, t: nat)
    requires Valid(r, lo) && Is(r, d, Dir) && i < 1024 && !Present(r.mem[d][i])
    requires Is(r, t, Held) && r.mem[t] == ZeroPage()
    ensures Valid(AddTable(r, d, i, t), lo)
    ensures forall e: nat, x: nat, y: nat :: Is(r, e, Dir) && x < 1024 && y < 1024 ==>
      Pte(AddTable(r, d, i, t).mem, e, x, y) == Pte(r.mem, e, x, y)
  {
    var s := AddTable(r, d, i, t);
    forall e: nat, x: nat, y: nat | Is(r, e, Dir) && x < 1024 && y < 1024
      ensures Pte(s.mem, e, x, y) == Pte(r.mem, e, x, y)
    {
      AddTablePtes(r, lo, d, i, t, e, x, y);
    }
  }

  /** mappages: entry (i, j) of d gets word w; u says what the page it leads to is now. */
  function SetPte(r: Ram, d: nat, i: nat, j: nat, w: Word): Ram
    requires d < |r.mem| && i < 1024 && j < 1024 && r.mem[d][i].frame < |r.mem|
  {
    var t := r.mem[d][i].frame;
    r.(mem := r.mem[t := r.mem[t][j := w]])
  }

  lemma SetPtePtes(r: Ram, lo: nat, d: nat, i: nat, j: nat, w: Word, e: nat, x: nat, y: nat)
    requires Valid(r, lo) && Is(r, d, Dir) && i < 1024 && j < 1024 && Present(r.mem[d][i])
    requires w == ZERO || Present(w)
    requires Is(r, e, Dir) && x < 1024 && y < 1024
    ensures r.mem[d][i].frame < |r.mem|
    ensures Pte(SetPte(r, d, i, j, w).mem, e, x, y) ==
            if e == d && x == i && y == j then w else Pte(r.mem, e, x, y)
  {
    assert Is(r, r.mem[d][i].frame, Table(d, i));
    if Present(r.mem[e][x]) {
      assert Is(r, r.mem[e][x].frame, Table(e, x));
    }
  }

  lemma SetPteKeeps(r: Ram, lo: nat, d: nat, i: nat, j: nat, w: Word)
    requires Valid(r, lo) && Is(r, d, Dir) && i < 1024 && j < 1024 && Present(r.mem[d][i])
    requires w == ZERO || Present(w)
    ensures r.mem[d][i].frame < |r.mem|
    ensures forall e: nat, x: nat, y: nat :: Is(r, e, Dir) && x < 1024 && y < 1024 ==>
      Pte(SetPte(r, d, i, j, w).mem, e, x, y) == if e == d && x == i && y == j then w else Pte(r.mem, e, x, y)
    ensures var s := SetPte(r, d, i, j, w); Partition(s, lo) && Chained(s) && DirsOk(s) && TablesOk(s)
  {
    assert Is(r, r.mem[d][i].frame, Table(d, i));
    forall e: nat, x: nat, y: nat | Is(r, e, Dir) && x < 1024 && y < 1024
      ensures Pte(SetPte(r, d, i, j, w).mem, e, x, y) == if e == d && x == i && y == j then w else Pte(r.mem, e, x, y)
    {
      SetPtePtes(r, lo, d, i, j, w, e, x, y);
    }
  }

  lemma Relabel(r: Ram, lo: nat, f: nat, u: Use)
    requires Partition(r, lo) && Chained(r) && DirsOk(r) && TablesOk(r)
    requires f in r.owner && !r.owner[f].Dir? && !r.owner[f].Table? && !u.Dir? && !u.Table?
    ensures var s := r.(owner := r.owner[f := u]); Partition(s, lo) && Chained(s) && DirsOk(s) && TablesOk(s)
  {
  }

  /** A user page is mapped: its page turns from Held to User. */
  function MapUser(r: Ram, d: nat, i: nat, j: nat, w: Word): Ram
    requires d < |r.mem| && i < 1024 && j < 1024 && r.mem[d][i].frame < |r.mem|
  {
    var s := SetPte(r, d, i, j, w);
    s.(owner := s.owner[w.frame := User(d, i, j)])
  }

  lemma MapUserValid(r: Ram, lo: nat, d: nat, i: nat, j: nat, w: Word)
    requires Valid(r, lo) && Is(r, d, Dir) && i < USER_TABLES && j < 1024 && Present(r.mem[d][i])
    requires Present(w) && Is(r, w.frame, Held) && !Present(Pte(r.mem, d, i, j))
    ensures r.mem[d][i].frame < |r.mem|
    ensures Valid(MapUser(r, d, i, j, w), lo)
    ensures forall e: nat, x: nat, y: nat :: Is(r, e, Dir) && x < 1024 && y < 1024 ==>
      Pte(MapUser(r, d, i, j, w).mem, e, x, y) == if e == d && x == i && y == j then w else Pte(r.mem, e, x, y)
  {
    SetPteKeeps(r, lo, d, i, j, w);
    Relabel(SetPte(r, d, i, j, w), lo, w.frame, User(d, i, j));
  }

  /** deallocuvm: the entry is cleared and its page is Held again, to be freed. */
  function UnmapUser(r: Ram, d: nat, i: nat, j: nat): Ram
    requires d < |r.mem| && i < 1024 && j < 1024 && r.mem[d][i].frame < |r.mem|
  {
    var s := SetPte(r, d, i, j, ZERO);
    s.(owner := s.owner[Pte(r.mem, d, i, j).frame := Held])
  }

  lemma UnmapUserValid(r: Ram, lo: nat, d: nat, i: nat, j: nat)
    requires Valid(r, lo) && Is(r, d, Dir) && i < USER_TABLES && j < 1024 && Present(Pte(r.mem, d, i, j))
    ensures r.mem[d][i].frame < |r.mem|
    ensures Valid(UnmapUser(r, d, i, j), lo) && Is(r, Pte(r.mem, d, i, j).frame, User(d, i, j))
    ensures forall e: nat, x: nat, y: nat :: Is(r, e, Dir) && x < 1024 && y < 1024 ==>
      Pte(UnmapUser(r, d, i, j).mem, e, x, y) == if e == d && x == i && y == j then ZERO else Pte(r.mem, e, x, y)
  {
    assert Is(r, Pte(r.mem, d, i, j).frame, User(d, i, j));
    SetPteKeeps(r, lo, d, i, j, ZERO);
    Relabel(SetPte(r, d, i, j, ZERO), lo, Pte(r.mem, d, i, j).frame, Held);
  }

  function FreeUser(r: Ram, d: nat, i: nat, j: nat): Ram
    requires d < |r.mem| && i < 1024 && j < 1024 && r.mem[d][i].frame < |r.mem| && Pte(r.mem, d, i, j).frame < |r.mem|
  {
    Release(UnmapUser(r, d, i, j), Pte(r.mem, d, i, j).frame)
  }

  lemma FreeUserValid(r: Ram, lo: nat, d: nat, i: nat, j: nat)
    requires Valid(r, lo) && Is(r, d, Dir) && i < USER_TABLES && j < 1024 && Present(Pte(r.mem, d, i, j))
    ensures r.mem[d][i].frame < |r.mem| && Pte(r.mem, d, i, j).frame < |r.mem|
    ensures Valid(FreeUser(r, d, i, j), lo) && Valid(UnmapUser(r, d, i, j), lo)
    ensures var f := Pte(r.mem, d, i, j).frame;
      Is(r, f, User(d, i, j)) && Is(UnmapUser(r, d, i, j), f, Held) && FreeUser(r, d, i, j).owner == r.owner - {f}
    ensures forall g: nat :: g in r.owner && g != Pte(r.mem, d, i, j).frame && g != r.mem[d][i].frame ==>
      FreeUser(r, d, i, j).mem[g] == r.mem[g]
    ensures forall x: nat, y: nat :: x < 1024 && y < 1024 ==>
      Pte(FreeUser(r, d, i, j).mem, d, x, y) == if x == i && y == j then ZERO else Pte(r.mem, d, x, y)
    ensures Is(r, r.mem[d][i].frame, Table(d, i))
  {
    UnmapUserValid(r, lo, d, i, j);
    ReleaseValid(UnmapUser(r, d, i, j), lo, Pte(r.mem, d, i, j).frame);
    assert Is(r, r.mem[d][i].frame, Table(d, i));
  }

  /** An entry of the kernel half leads to a fixed page that nobody owns. */
  lemma MapKernelValid(r: Ram, lo: nat, d: nat, i: nat, j: nat, w: Word)
    requires Valid(r, lo) && Is(r, d, Dir) && USER_TABLES <= i < 1024 && j < 1024 && Present(r.mem[d][i])
    requires Present(w)
    ensures r.mem[d][i].frame < |r.mem|
    ensures Valid(SetPte(r, d, i, j, w), lo)
    ensures forall e: nat, x: nat, y: nat :: Is(r, e, Dir) && x < 1024 && y < 1024 ==>
      Pte(SetPte(r, d, i, j, w).mem, e, x, y) == if e == d && x == i && y == j then w else Pte(r.mem, e, x, y)
  {
    SetPteKeeps(r, lo, d, i, j, w);
  }

  /** setupkvm: a cleared page becomes an empty directory. */
  lemma NewDirValid(r: Ram, lo: nat, d: nat)
    requires Valid(r, lo) && Is(r, d, Held) && r.mem[d] == ZeroPage()
    ensures Valid(r.(owner := r.owner[d := Dir]), lo)
    ensures forall i: nat, j: nat :: i < 1024 && j < 1024 ==> Pte(r.mem, d, i, j) == ZERO
  {
  }

  predicate OfDir(f: nat, u: Use, d: nat) {
    (u == Dir && f == d) || (u.Table? && u.dir == d) || (u.User? && u.dir == d)
  }

  /** freevm, once the user half is empty: the directory and its tables are Held, to be freed. */
  function Dismantle(r: Ram, d: nat): Ram {
    r.(owner := map f | f in r.owner :: if OfDir(f, r.owner[f], d) then Held else r.owner[f])
  }

  lemma DismantleValid(r: Ram, lo: nat, d: nat)
    requires Valid(r, lo) && Is(r, d, Dir)
    ensures Valid(Dismantle(r, d), lo)
  {
    var s := Dismantle(r, d);
    forall t: nat | t in s.owner && s.owner[t].Table?
      ensures TableBack(s, t, s.owner[t].dir, s.owner[t].i)
    {
      assert TableBack(r, t, r.owner[t].dir, r.owner[t].i);
    }
    forall f: nat | f in s.owner && s.owner[f].User?
      ensures UserBack(s, f, s.owner[f].dir, s.owner[f].i, s.owner[f].j)
    {
      assert UserBack(r, f, r.owner[f].dir, r.owner[f].i, r.owner[f].j);
    }
    forall e: nat, i: nat | Is(s, e, Dir) && e < |s.mem| && i < 1024 && Present(s.mem[e][i])
      ensures Is(s, s.mem[e][i].frame, Table(e, i))
    {
      assert Is(r, r.mem[e][i].frame, Table(e, i));
    }
    forall e: nat, i: nat, j: nat | Is(s, e, Dir) && i < USER_TABLES && j < 1024 && Present(Pte(s.mem, e, i, j))
      ensures Is(s, Pte(s.mem, e, i, j).frame, User(e, i, j))
    {
      assert Is(r, Pte(r.mem, e, i, j).frame, User(e, i, j));
    }
  }
}
