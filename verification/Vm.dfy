/** kalloc.c and vm.c: page allocation and the page tables of processes. Addresses are page
    numbers; word, page and ownership are those of Pages. */
module Vm {
  import opened Pages
  import opened Options

  const PGSIZE: nat := 4096
  const KERNBASE: nat := 0x8000_0000
  const USER_PAGES: nat := 0x8_0000
  const ALL_PAGES: nat := 0x10_0000

  function Pdx(v: nat): nat { v / 1024 }

  function Ptx(v: nat): nat { v % 1024 }

  /** PGROUNDUP, as a page number. */
  function RoundUp(sz: nat): nat { (sz + PGSIZE - 1) / PGSIZE }

  /** The flag bits that mappages writes. */
  function OrPresent(perm: nat): (flags: nat)
    ensures flags % 2 == 1 && flags / 2 == perm / 2
  {
    if perm % 2 == 1 then perm else perm + 1
  }

  function Entry(mem: seq<Page>, d: nat, v: nat): Word
    requires v < ALL_PAGES
  {
    Pte(mem, d, Pdx(v), Ptx(v))
  }

  /** Page v of d is mapped as before, and holds what it held. */
  ghost predicate Kept(r: Ram, s: Ram, d: nat, v: nat)
    requires v < ALL_PAGES
  {
    && Entry(s.mem, d, v) == Entry(r.mem, d, v)
    && (v < USER_PAGES && Present(Entry(r.mem, d, v)) ==>
         var f := Entry(r.mem, d, v).frame; f < |r.mem| && f < |s.mem| && s.mem[f] == r.mem[f])
  }

  /** Every page outside the address space d keeps its use and its contents. */
  ghost predicate Others(r: Ram, s: Ram, d: nat) {
    && |s.mem| == |r.mem|
    && forall f: nat :: f in r.owner && !OfDir(f, r.owner[f], d) && f < |r.mem| ==>
         f in s.owner && s.owner[f] == r.owner[f] && s.mem[f] == r.mem[f]
  }

  /** A user page in the range a .. b of d. */
  predicate InRange(u: Use, d: nat, a: nat, b: nat) {
    u.User? && u.dir == d && a <= u.i * 1024 + u.j < b
  }

  function Without(owner: map<nat, Use>, d: nat, a: nat, b: nat): map<nat, Use> {
    map f | f in owner && !InRange(owner[f], d, a, b) :: owner[f]
  }

  lemma Split(v: nat)
    requires v < ALL_PAGES
    ensures Pdx(v) < 1024 && Ptx(v) < 1024 && Pdx(v) * 1024 + Ptx(v) == v
    ensures v < USER_PAGES <==> Pdx(v) < USER_TABLES
  {
  }

  lemma SplitOnly(v: nat, i: nat, j: nat)
    requires v == i * 1024 + j && j < 1024
    ensures Pdx(v) == i && Ptx(v) == j
  {
  }

  /** s is r with exactly the user pages a .. b of d unmapped and given back. */
  ghost predicate Unmapped(r: Ram, s: Ram, d: nat, a: nat, b: nat) {
    && |s.mem| == |r.mem| && s.owner == Without(r.owner, d, a, b)
    && (forall v: nat :: v < ALL_PAGES ==> Entry(s.mem, d, v) == if a <= v < b then ZERO else Entry(r.mem, d, v))
    && (forall f: nat :: f in s.owner && f < |s.mem| && (!s.owner[f].Table? || s.owner[f].dir != d) ==>
         s.mem[f] == r.mem[f])
  }

  lemma UserEntry(s: Ram, lo: nat, f: nat)
    requires Pages.Valid(s, lo) && f in s.owner && s.owner[f].User?
    ensures var u := s.owner[f];
      u.j < 1024 && u.i * 1024 + u.j < USER_PAGES && Present(Entry(s.mem, u.dir, u.i * 1024 + u.j))
  {
    var u := s.owner[f];
    assert UserBack(s, f, u.dir, u.i, u.j);
    SplitOnly(u.i * 1024 + u.j, u.i, u.j);
  }

  /** Where no entry is present there is nothing to give back: skipping is the same as walking. */
  lemma SkipStep(r: Ram, s: Ram, lo: nat, d: nat, a: nat, v: nat, n: nat)
    requires Pages.Valid(s, lo) && Unmapped(r, s, d, a, v) && a <= v <= n <= USER_PAGES
    requires forall x: nat :: v <= x < n ==> !Present(Entry(s.mem, d, x))
    ensures Unmapped(r, s, d, a, n)
  {
    forall f: nat | f in s.owner && s.owner[f].User?
      ensures !InRange(s.owner[f], d, v, n)
    {
      UserEntry(s, lo, f);
    }
    assert s.owner == Without(r.owner, d, a, n);
  }

  lemma UnmapStep(r: Ram, s: Ram, lo: nat, d: nat, a: nat, v: nat)
    requires Pages.Valid(s, lo) && Unmapped(r, s, d, a, v) && a <= v < USER_PAGES && Is(s, d, Dir)
    requires Present(Entry(s.mem, d, v))
    ensures s.mem[d][Pdx(v)].frame < |s.mem| && Entry(s.mem, d, v).frame < |s.mem|
    ensures Pages.Valid(UnmapUser(s, d, Pdx(v), Ptx(v)), lo)
    ensures Is(UnmapUser(s, d, Pdx(v), Ptx(v)), Entry(s.mem, d, v).frame, Held)
    ensures Unmapped(r, FreeUser(s, d, Pdx(v), Ptx(v)), d, a, v + 1) && Is(FreeUser(s, d, Pdx(v), Ptx(v)), d, Dir)
  {
    Split(v);
    FreeUserValid(s, lo, d, Pdx(v), Ptx(v));
    UnmapOne(r, s, lo, d, a, v, FreeUser(s, d, Pdx(v), Ptx(v)), Entry(s.mem, d, v).frame, s.mem[d][Pdx(v)].frame);
  }

  /** Page v, at f and entered in the table pt, is unmapped: t is what is left. */
  lemma UnmapOne(r: Ram, s: Ram, lo: nat, d: nat, a: nat, v: nat, t: Ram, f: nat, pt: nat)
    requires Pages.Valid(s, lo) && Unmapped(r, s, d, a, v) && a <= v < USER_PAGES
    requires |t.mem| == |s.mem| && Is(s, f, User(d, Pdx(v), Ptx(v))) && t.owner == s.owner - {f} && Is(s, pt, Table(d, Pdx(v)))
    requires forall g: nat :: g in s.owner && g != f && g != pt && g < |s.mem| ==> t.mem[g] == s.mem[g]
    requires forall i: nat, j: nat :: i < 1024 && j < 1024 ==>
      Pte(t.mem, d, i, j) == if i == Pdx(v) && j == Ptx(v) then ZERO else Pte(s.mem, d, i, j)
    ensures Unmapped(r, t, d, a, v + 1)
  {
    assert forall g: nat :: g in s.owner && s.owner[g].User? ==> UserBack(s, g, s.owner[g].dir, s.owner[g].i, s.owner[g].j);
    UnmapOwner(r.owner, s.owner, d, a, v, f);
    UnmapEntries(r, s, t, d, a, v);
  }

  lemma UnmapEntries(r: Ram, s: Ram, t: Ram, d: nat, a: nat, v: nat)
    requires a <= v < ALL_PAGES
    requires forall x: nat :: x < ALL_PAGES ==> Entry(s.mem, d, x) == if a <= x < v then ZERO else Entry(r.mem, d, x)
    requires forall i: nat, j: nat :: i < 1024 && j < 1024 ==>
      Pte(t.mem, d, i, j) == if i == Pdx(v) && j == Ptx(v) then ZERO else Pte(s.mem, d, i, j)
    ensures forall x: nat :: x < ALL_PAGES ==> Entry(t.mem, d, x) == if a <= x < v + 1 then ZERO else Entry(r.mem, d, x)
  {
    forall x: nat | x < ALL_PAGES
      ensures Entry(t.mem, d, x) == if a <= x < v + 1 then ZERO else Entry(r.mem, d, x)
    {
      Split(x);
      Split(v);
      assert Entry(s.mem, d, x) == Pte(s.mem, d, Pdx(x), Ptx(x));
    }
  }

  lemma UnmapOwner(r: map<nat, Use>, s: map<nat, Use>, d: nat, a: nat, v: nat, f: nat)
    requires a <= v && s == Without(r, d, a, v) && f in s && s[f] == User(d, Pdx(v), Ptx(v))
    requires forall g: nat :: g in s && s[g].User? ==> s[g].j < 1024
    requires forall g: nat :: g in s && s[g] == s[f] ==> g == f
    ensures s - {f} == Without(r, d, a, v + 1)
  {
    forall g: nat | g in r && InRange(r[g], d, v, v + 1)
      ensures g == f
    {
      assert g in s;
      SplitOnly(v, r[g].i, r[g].j);
    }
  }

  /** What walkpgdir may do: table i of d appears, no mapping changes. */
  ghost predicate Walked(r: Ram, s: Ram, d: nat, i: nat) {
    && |s.mem| == |r.mem|
    && (forall f: nat :: f in r.owner ==> f in s.owner && s.owner[f] == r.owner[f])
    && (forall f: nat :: f in r.owner && f != d && f < |r.mem| ==> s.mem[f] == r.mem[f])
    && (forall f: nat :: f in s.owner && f !in r.owner ==> s.owner[f] == Table(d, i))
    && (forall e: nat, x: nat, y: nat :: Is(r, e, Dir) && x < 1024 && y < 1024 ==>
         Pte(s.mem, e, x, y) == Pte(r.mem, e, x, y))
  }

  lemma UnmappedNone(r: Ram, d: nat, v: nat)
    ensures Unmapped(r, r, d, v, v)
  {
    assert r.owner == Without(r.owner, d, v, v);
  }

  lemma Skipped(mem: seq<Page>, d: nat, v: nat, n: nat)
    requires d < |mem| && v < ALL_PAGES && !Present(mem[d][Pdx(v)]) && v <= n <= (Pdx(v) + 1) * 1024 && n <= ALL_PAGES
    ensures forall x: nat :: v <= x < n ==> !Present(Entry(mem, d, x))
  {
    forall x: nat | v <= x < n
      ensures !Present(Entry(mem, d, x))
    {
      assert Pdx(x) == Pdx(v);
    }
  }

  // ---- growing an address space ----

  /** s has all pages of r in their old use, and more pages that belong to d or are Held and
      in h; of the pages of r only the directory d and its tables may have been written. */
  ghost predicate Extends(r: Ram, s: Ram, d: nat, h: set<nat>) {
    && |s.mem| == |r.mem|
    && (forall g: nat :: g in r.owner ==> g in s.owner && s.owner[g] == r.owner[g])
    && (forall g: nat :: g in r.owner && g < |r.mem| && g != d && !(r.owner[g].Table? && r.owner[g].dir == d) ==>
         s.mem[g] == r.mem[g])
    && (forall g: nat :: g in s.owner && g !in r.owner ==> OfDir(g, s.owner[g], d) || (g in h && s.owner[g] == Held))
  }

  predicate ZeroedAt(mem: seq<Page>, w: Word) {
    Present(w) && w.flags == 7 && w.frame < |mem| && mem[w.frame] == ZeroPage()
  }

  /** s is r with zeroed user pages a .. b added to d. */
  ghost predicate Filled(r: Ram, s: Ram, d: nat, a: nat, b: nat, h: set<nat>) {
    && Extends(r, s, d, h)
    && (forall v: nat :: a <= v < b && v < ALL_PAGES ==> ZeroedAt(s.mem, Entry(s.mem, d, v)))
    && (forall v: nat :: v < ALL_PAGES && !(a <= v < b) ==> Entry(s.mem, d, v) == Entry(r.mem, d, v))
  }

  /** s is r with page f, Held before, mapped at v. */
  ghost predicate UserMapped(r: Ram, s: Ram, d: nat, v: nat, w: Word) {
    && |s.mem| == |r.mem| && Is(s, w.frame, User(d, Pdx(v), Ptx(v)))
    && (w.frame < |r.mem| ==> s.mem[w.frame] == r.mem[w.frame])
    && (forall g: nat :: g in r.owner && g != w.frame ==> g in s.owner && s.owner[g] == r.owner[g])
    && (forall g: nat :: g in r.owner && g < |r.mem| ==>
         g == d || r.owner[g] == Table(d, Pdx(v)) || s.mem[g] == r.mem[g])
    && (forall g: nat :: g in s.owner && g !in r.owner ==> s.owner[g] == Table(d, Pdx(v)))
    && (forall i: nat, j: nat :: i < 1024 && j < 1024 ==>
         Pte(s.mem, d, i, j) == if i == Pdx(v) && j == Ptx(v) then w else Pte(r.mem, d, i, j))
  }

  lemma UserStep(r: Ram, u: Ram, lo: nat, d: nat, v: nat, w: Word)
    requires Pages.Valid(u, lo) && Is(r, d, Dir) && Walked(r, u, d, Pdx(v)) && v < USER_PAGES
    requires Is(r, w.frame, Held) && Present(w) && !Present(Entry(r.mem, d, v)) && Present(u.mem[d][Pdx(v)])
    ensures u.mem[d][Pdx(v)].frame < |u.mem|
    ensures Pages.Valid(MapUser(u, d, Pdx(v), Ptx(v), w), lo)
    ensures UserMapped(r, MapUser(u, d, Pdx(v), Ptx(v), w), d, v, w)
  {
    Split(v);
    assert Is(u, u.mem[d][Pdx(v)].frame, Table(d, Pdx(v)));
    MapUserValid(u, lo, d, Pdx(v), Ptx(v), w);
  }

  /** One page added: s before kalloc, u after mappages. */
  ghost predicate AddedPage(s: Ram, u: Ram, d: nat, v: nat, f: nat, w: Word)
    requires v < ALL_PAGES
  {
    && |u.mem| == |s.mem| && f !in s.owner && Is(u, f, User(d, Pdx(v), Ptx(v)))
    && (forall g: nat :: g in s.owner ==> g in u.owner && u.owner[g] == s.owner[g])
    && (forall g: nat :: g in s.owner && g < |s.mem| ==>
         g == d || s.owner[g] == Table(d, Pdx(v)) || u.mem[g] == s.mem[g])
    && (forall g: nat :: g in u.owner && g !in s.owner ==> g == f || u.owner[g] == Table(d, Pdx(v)))
    && (forall x: nat :: x < ALL_PAGES ==> Entry(u.mem, d, x) == if x == v then w else Entry(s.mem, d, x))
  }

  lemma AddedEntries(m: seq<Page>, n: seq<Page>, d: nat, v: nat, w: Word)
    requires v < ALL_PAGES
    requires forall i: nat, j: nat :: i < 1024 && j < 1024 ==>
      Pte(n, d, i, j) == if i == Pdx(v) && j == Ptx(v) then w else Pte(m, d, i, j)
    ensures forall x: nat :: x < ALL_PAGES ==> Entry(n, d, x) == if x == v then w else Entry(m, d, x)
  {
    forall x: nat | x < ALL_PAGES
      ensures Entry(n, d, x) == if x == v then w else Entry(m, d, x)
    {
      Split(x);
      Split(v);
    }
  }

  lemma FilledStep(r: Ram, s: Ram, u: Ram, lo: nat, d: nat, a: nat, v: nat, f: nat, next: nat)
    requires next == v + 1 && Pages.Valid(s, lo) && Is(s, d, Dir) && a <= v < USER_PAGES && Filled(r, s, d, a, v, {})
    requires AddedPage(s, u, d, v, f, Word(f, 7)) && f < |u.mem| && u.mem[f] == ZeroPage()
    ensures Filled(r, u, d, a, next, {})
  {
    forall x: nat | a <= x < v
      ensures ZeroedAt(u.mem, Entry(u.mem, d, x))
    {
      Split(x);
      var w := Entry(s.mem, d, x);
      assert ZeroedAt(s.mem, w);
      assert Is(s, w.frame, User(d, Pdx(x), Ptx(x)));
    }
  }

  /** Giving back what was added leaves every mapping as it was. */
  lemma BackOut(r: Ram, u: Ram, s: Ram, lo: nat, d: nat, a: nat, v: nat, b: nat, h: set<nat>)
    requires Pages.Valid(r, lo) && Is(r, d, Dir) && Filled(r, u, d, a, v, h) && a <= v <= b <= USER_PAGES
    requires forall x: nat :: a <= x < b ==> !Present(Entry(r.mem, d, x))
    requires Unmapped(u, s, d, a, b)
    ensures Filled(r, s, d, a, a, h)
  {
    forall g: nat | g in r.owner
      ensures g in s.owner && s.owner[g] == r.owner[g]
    {
      if r.owner[g].User? && r.owner[g].dir == d {
        UserEntry(r, lo, g);
      }
    }
  }

  /** What is Held and was not in use before can be given back. */
  lemma GiveBack(r: Ram, s: Ram, d: nat, a: nat, f: nat)
    requires Filled(r, s, d, a, a, {f}) && f !in r.owner && Is(s, f, Held) && f < |s.mem|
    requires forall v: nat :: v < ALL_PAGES ==> Entry(Release(s, f).mem, d, v) == Entry(s.mem, d, v)
    ensures Filled(r, Release(s, f), d, a, a, {})
  {
  }

  lemma StuckFilled(r: Ram, s: Ram, u: Ram, lo: nat, d: nat, a: nat, v: nat, f: nat)
    requires Pages.Valid(s, lo) && Is(s, d, Dir) && a <= v < USER_PAGES && Filled(r, s, d, a, v, {})
    requires Extends(s, u, d, {f})
    requires forall x: nat :: x < ALL_PAGES ==> Entry(u.mem, d, x) == Entry(s.mem, d, x)
    ensures Filled(r, u, d, a, v, {f})
  {
    forall x: nat | a <= x < v
      ensures ZeroedAt(u.mem, Entry(u.mem, d, x))
    {
      Split(x);
      var w := Entry(s.mem, d, x);
      assert ZeroedAt(s.mem, w);
      assert Is(s, w.frame, User(d, Pdx(x), Ptx(x)));
    }
  }

  // ---- taking an address space down ----

  function Rest(owner: map<nat, Use>, d: nat): map<nat, Use> {
    map f | f in owner && !OfDir(f, owner[f], d) :: owner[f]
  }

  /** The tables that the first n entries of a directory page lead to. */
  ghost function TablesBelow(page: Page, n: nat): set<nat>
    requires n <= 1024
  {
    if n == 0 then {} else
    TablesBelow(page, n - 1) + if Present(page[n - 1]) then {page[n - 1].frame} else {}
  }

  lemma {:induction false} TablesAre(page: Page, n: nat, f: nat)
    requires n <= 1024
    ensures f in TablesBelow(page, n) <==> exists k: nat :: k < n && Present(page[k]) && page[k].frame == f
  {
    if n > 0 {
      TablesAre(page, n - 1, f);
    }
  }

  lemma TablesDistinct(r: Ram, lo: nat, d: nat, n: nat)
    requires Pages.Valid(r, lo) && Is(r, d, Dir) && n < 1024 && Present(r.mem[d][n])
    ensures r.mem[d][n].frame !in TablesBelow(r.mem[d], n) && r.mem[d][n].frame != d
    ensures Is(r, r.mem[d][n].frame, Table(d, n))
  {
    assert Is(r, r.mem[d][n].frame, Table(d, n));
    TablesAre(r.mem[d], n, r.mem[d][n].frame);
    forall k: nat | k < n && Present(r.mem[d][k])
      ensures r.mem[d][k].frame != r.mem[d][n].frame
    {
      assert Is(r, r.mem[d][k].frame, Table(d, k));
    }
  }

  /** freevm after i entries of the directory. */
  ghost predicate Freeing(r: Ram, s: Ram, d: nat, i: nat)
    requires d < |r.mem| && i <= 1024
  {
    && |s.mem| == |r.mem| && s.owner == Dismantle(r, d).owner - TablesBelow(r.mem[d], i)
    && d in s.owner && s.owner[d] == Held
    && forall f: nat :: f in s.owner ==> f < |s.mem| && s.mem[f] == r.mem[f]
  }

  lemma FreeingNext(r: Ram, s: Ram, t: Ram, d: nat, i: nat, f: nat)
    requires d < |r.mem| && i < 1024 && Freeing(r, s, d, i) && Present(r.mem[d][i]) && f == r.mem[d][i].frame && f != d
    requires f < |s.mem| && t == Release(s, f)
    ensures Freeing(r, t, d, i + 1)
  {
  }

  /** With the user pages, then the tables, then the directory gone, all of d is gone. */
  lemma AllGone(was: Ram, r: Ram, lo: nat, d: nat)
    requires Pages.Valid(was, lo) && Pages.Valid(r, lo) && Is(r, d, Dir)
    requires r.owner == Without(was.owner, d, 0, USER_PAGES)
    ensures Dismantle(r, d).owner - TablesBelow(r.mem[d], 1024) - {d} == Rest(was.owner, d)
  {
    var o := Dismantle(r, d).owner - TablesBelow(r.mem[d], 1024) - {d};
    forall f: nat | f in was.owner && OfDir(f, was.owner[f], d)
      ensures f !in o
    {
      if was.owner[f].User? {
        UserEntry(was, lo, f);
      } else if was.owner[f].Table? {
        TablesAre(r.mem[d], 1024, f);
        assert f in r.owner && TableBack(r, f, r.owner[f].dir, r.owner[f].i);
      }
    }
    forall f: nat | f in was.owner && !OfDir(f, was.owner[f], d)
      ensures f in o && o[f] == was.owner[f]
    {
      TablesAre(r.mem[d], 1024, f);
      forall k: nat | k < 1024 && Present(r.mem[d][k])
        ensures r.mem[d][k].frame != f
      {
        assert Is(r, r.mem[d][k].frame, Table(d, k));
      }
    }
  }

  // ---- the kernel half ----

  /** Pages virt .. end lead to the frames from start on. */
  datatype KMap = KMap(virt: nat, end: nat, start: nat, perm: nat)

  /** The four kernel ranges; data is the physical page where kernel data begins. */
  function KernelMap(data: nat, k: nat): (m: KMap)
    requires 0x100 < data < 0xE000 && k < 4
    ensures USER_PAGES <= m.virt < m.end <= ALL_PAGES
  {
    if k == 0 then KMap(0x80000, 0x80100, 0, 2)
    else if k == 1 then KMap(0x80100, 0x80000 + data, 0x100, 0)
    else if k == 2 then KMap(0x80000 + data, 0x8E000, data, 2)
    else KMap(0xFE000, 0x100000, 0xFE000, 2)
  }

  /** What the first k ranges say about page v. */
  function KernelWord(data: nat, k: nat, v: nat): Word
    requires 0x100 < data < 0xE000 && k <= 4
  {
    if k == 0 then ZERO else
    var m := KernelMap(data, k - 1);
    if m.virt <= v < m.end then Word(m.start + (v - m.virt), OrPresent(m.perm))
    else KernelWord(data, k - 1, v)
  }

  /** The ranges do not overlap, so mappages never meets an entry that is present. */
  lemma KernelApart(data: nat, k: nat, v: nat)
    requires 0x100 < data < 0xE000 && k < 4
    requires var m := KernelMap(data, k); m.virt <= v < m.end
    ensures !Present(KernelWord(data, k, v))
  {
    assert KernelWord(data, 0, v) == ZERO;
    if k > 1 { assert KernelWord(data, 1, v) == ZERO; }
    if k > 2 { assert KernelWord(data, 2, v) == ZERO; }
  }

  /** Physical memory appears at KERNBASE, read-only where the kernel's text is, and the device
      space appears at its own address; nothing else is mapped. */
  lemma KernelLayout(data: nat, v: nat)
    requires 0x100 < data < 0xE000 && v < ALL_PAGES
    ensures KernelWord(data, 4, v) ==
      if 0x80000 <= v < 0x8E000 then Word(v - 0x80000, if 0x80100 <= v < 0x80000 + data then 1 else 3)
      else if v >= 0xFE000 then Word(v, 3) else ZERO
  {
    assert KernelWord(data, 1, v) == if 0x80000 <= v < 0x80100 then Word(v - 0x80000, 3) else ZERO by {
      assert KernelWord(data, 0, v) == ZERO;
    }
    assert KernelWord(data, 2, v) ==
      if 0x80100 <= v < 0x80000 + data then Word(v - 0x80000, 1) else KernelWord(data, 1, v);
    assert KernelWord(data, 3, v) ==
      if 0x80000 + data <= v < 0x8E000 then Word(v - 0x80000, 3) else KernelWord(data, 2, v);
  }

  /** s is r with pages a .. b of the kernel half of d leading to the frames from pa on. */
  ghost predicate KernelMapped(r: Ram, s: Ram, d: nat, a: nat, b: nat, pa: nat, perm: nat) {
    && Extends(r, s, d, {})
    && forall v: nat :: v < ALL_PAGES ==>
         Entry(s.mem, d, v) == if a <= v < b then Word(pa + (v - a), OrPresent(perm)) else Entry(r.mem, d, v)
  }

  lemma KernelStep(r: Ram, u: Ram, lo: nat, d: nat, v: nat, pa: nat, perm: nat)
    requires Pages.Valid(u, lo) && Is(r, d, Dir) && Walked(r, u, d, Pdx(v)) && USER_PAGES <= v < ALL_PAGES
    requires Present(u.mem[d][Pdx(v)])
    ensures u.mem[d][Pdx(v)].frame < |u.mem|
    ensures Pages.Valid(SetPte(u, d, Pdx(v), Ptx(v), Word(pa, OrPresent(perm))), lo)
    ensures KernelMapped(r, SetPte(u, d, Pdx(v), Ptx(v), Word(pa, OrPresent(perm))), d, v, v + 1, pa, perm)
  {
    Split(v);
    var w := Word(pa, OrPresent(perm));
    assert Is(u, u.mem[d][Pdx(v)].frame, Table(d, Pdx(v)));
    MapKernelValid(u, lo, d, Pdx(v), Ptx(v), w);
    AddedEntries(r.mem, SetPte(u, d, Pdx(v), Ptx(v), w).mem, d, v, w);
  }

  lemma ExtendsMore(r: Ram, s: Ram, u: Ram, d: nat)
    requires Extends(r, s, d, {}) && Extends(s, u, d, {})
    ensures Extends(r, u, d, {})
  {
  }

  lemma KernelMore(r: Ram, s: Ram, u: Ram, d: nat, a: nat, v: nat, next: nat, pa: nat, at: nat, perm: nat)
    requires a <= v && next == v + 1 && at == pa + (v - a) && KernelMapped(r, s, d, a, v, pa, perm) && KernelMapped(s, u, d, v, next, at, perm)
    ensures KernelMapped(r, u, d, a, next, pa, perm)
  {
    ExtendsMore(r, s, u, d);
  }

  /** s is r with a new directory d whose entries are those of the first k kernel ranges. */
  ghost predicate KernelSet(r: Ram, s: Ram, d: nat, data: nat, k: nat)
    requires 0x100 < data < 0xE000 && k <= 4
  {
    && d !in r.owner && Extends(r, s, d, {}) && Is(s, d, Dir)
    && forall v: nat :: v < ALL_PAGES ==> Entry(s.mem, d, v) == KernelWord(data, k, v)
  }

  lemma NewKernel(r: Ram, u: Ram, lo: nat, d: nat, data: nat)
    requires Pages.Valid(u, lo) && d !in r.owner && d < |r.mem| && 0x100 < data < 0xE000
    requires u.owner == r.owner[d := Held] && u.mem == r.mem[d := ZeroPage()]
    ensures Pages.Valid(u.(owner := u.owner[d := Dir]), lo) && KernelSet(r, u.(owner := u.owner[d := Dir]), d, data, 0)
  {
    NewDirValid(u, lo, d);
  }

  lemma KernelNext(r: Ram, s: Ram, u: Ram, d: nat, data: nat, k: nat, next: nat)
    requires 0x100 < data < 0xE000 && k < 4 && next == k + 1 && KernelSet(r, s, d, data, k)
    requires var m := KernelMap(data, k); KernelMapped(s, u, d, m.virt, m.end, m.start, m.perm)
    ensures KernelSet(r, u, d, data, next)
  {
    ExtendsMore(r, s, u, d);
  }

  /** Taking down an address space made after r gives back exactly what r did not have. */
  lemma BackTo(r: Ram, s: Ram, d: nat)
    requires Extends(r, s, d, {}) && d !in r.owner
    requires forall g: nat :: g in r.owner ==> !(r.owner[g].Table? && r.owner[g].dir == d) && !(r.owner[g].User? && r.owner[g].dir == d)
    ensures Rest(s.owner, d) == r.owner
  {
  }

  lemma NoneOf(r: Ram, lo: nat, d: nat)
    requires Pages.Valid(r, lo) && d !in r.owner
    ensures forall g: nat :: g in r.owner ==> !(r.owner[g].Table? && r.owner[g].dir == d) && !(r.owner[g].User? && r.owner[g].dir == d)
  {
    forall g: nat | g in r.owner
      ensures !(r.owner[g].Table? && r.owner[g].dir == d) && !(r.owner[g].User? && r.owner[g].dir == d)
    {
      if r.owner[g].Table? {
        assert TableBack(r, g, r.owner[g].dir, r.owner[g].i);
      } else if r.owner[g].User? {
        assert UserBack(r, g, r.owner[g].dir, r.owner[g].i, r.owner[g].j);
      }
    }
  }

  /** The same pages are in use, for the same, with the same contents. */
  ghost predicate SamePages(r: Ram, s: Ram) {
    && |s.mem| == |r.mem| && s.owner == r.owner
    && forall f: nat :: f in r.owner && f < |r.mem| ==> s.mem[f] == r.mem[f]
  }

  // ---- copying an address space ----

  /** w is a page of its own with the flags and the contents that e leads to in r. */
  ghost predicate CopyOf(r: Ram, s: Ram, e: Word, w: Word) {
    && w.flags == e.flags && w.frame != e.frame && e.frame < |r.mem| && w.frame < |s.mem|
    && s.mem[w.frame] == r.mem[e.frame]
  }

  /** s is r with a new address space c: the kernel half, and copies of the first n pages of d. */
  ghost predicate Copied(r: Ram, s: Ram, d: nat, c: nat, data: nat, n: nat)
    requires 0x100 < data < 0xE000
  {
    && c !in r.owner && Extends(r, s, c, {}) && Is(s, c, Dir)
    && (forall v: nat :: v < n && v < ALL_PAGES ==> CopyOf(r, s, Entry(r.mem, d, v), Entry(s.mem, c, v)))
    && (forall v: nat :: n <= v < ALL_PAGES ==> Entry(s.mem, c, v) == KernelWord(data, 4, v))
  }

  lemma AddedExtends(r: Ram, s: Ram, u: Ram, c: nat, v: nat, f: nat, w: Word)
    requires v < ALL_PAGES && Extends(r, s, c, {}) && AddedPage(s, u, c, v, f, w)
    ensures Extends(r, u, c, {})
  {
  }

  lemma CopyKept(r: Ram, s: Ram, u: Ram, lo: nat, d: nat, c: nat, v: nat, f: nat, w: Word, x: nat)
    requires Pages.Valid(s, lo) && Is(s, c, Dir) && x < v < USER_PAGES && AddedPage(s, u, c, v, f, w)
    requires CopyOf(r, s, Entry(r.mem, d, x), Entry(s.mem, c, x)) && Present(Entry(r.mem, d, x))
    ensures CopyOf(r, u, Entry(r.mem, d, x), Entry(u.mem, c, x))
  {
    Split(x);
    assert Is(s, Entry(s.mem, c, x).frame, User(c, Pdx(x), Ptx(x)));
  }

  lemma CopyStep(r: Ram, s: Ram, u: Ram, lo: nat, d: nat, c: nat, data: nat, v: nat, f: nat, next: nat)
    requires Pages.Valid(r, lo) && Pages.Valid(s, lo) && Is(r, d, Dir) && 0x100 < data < 0xE000 && next == v + 1
    requires v < USER_PAGES && Copied(r, s, d, c, data, v)
    requires forall x: nat :: x <= v ==> Present(Entry(r.mem, d, x))
    requires AddedPage(s, u, c, v, f, Word(f, Entry(r.mem, d, v).flags))
    requires f < |u.mem| && Entry(r.mem, d, v).frame < |r.mem| && u.mem[f] == r.mem[Entry(r.mem, d, v).frame]
    ensures Copied(r, u, d, c, data, next)
  {
    var w := Word(f, Entry(r.mem, d, v).flags);
    AddedExtends(r, s, u, c, v, f, w);
    assert CopyOf(r, u, Entry(r.mem, d, v), w) by {
      Split(v);
      assert Is(r, Entry(r.mem, d, v).frame, User(d, Pdx(v), Ptx(v)));
    }
    forall x: nat | x < v
      ensures CopyOf(r, u, Entry(r.mem, d, x), Entry(u.mem, c, x))
    {
      CopyKept(r, s, u, lo, d, c, v, f, w, x);
    }
  }

  /** The parent's page v is where it was, with its contents. */
  lemma ParentKept(r: Ram, s: Ram, lo: nat, d: nat, c: nat, v: nat)
    requires Pages.Valid(r, lo) && Pages.Valid(s, lo) && Is(r, d, Dir) && c !in r.owner && Extends(r, s, c, {})
    requires v < USER_PAGES && Present(Entry(r.mem, d, v))
    ensures Is(s, d, Dir) && Present(s.mem[d][Pdx(v)]) && s.mem[d][Pdx(v)].frame < |s.mem|
    ensures s.mem[s.mem[d][Pdx(v)].frame][Ptx(v)] == Entry(r.mem, d, v)
    ensures Entry(r.mem, d, v).frame < |r.mem| && s.mem[Entry(r.mem, d, v).frame] == r.mem[Entry(r.mem, d, v).frame]
  {
    Split(v);
    assert Is(r, Entry(r.mem, d, v).frame, User(d, Pdx(v), Ptx(v)));
    assert Is(r, r.mem[d][Pdx(v)].frame, Table(d, Pdx(v)));
  }

  lemma ExtendsHeld(r: Ram, s: Ram, u: Ram, d: nat, f: nat)
    requires Extends(r, s, d, {}) && Extends(s, u, d, {f}) && f !in s.owner && Is(u, f, Held) && f < |u.mem|
    ensures Extends(r, Release(u, f), d, {})
  {
  }

  // ---- what the invariant and the contracts below mean ----

  predicate Between(f: nat, lo: nat, hi: nat) {
    lo <= f < hi
  }

  ghost predicate HeldRange(owner: map<nat, Use>, lo: nat, hi: nat) {
    && (forall g: nat :: g in owner <==> Between(g, lo, hi))
    && (forall g: nat :: g in owner ==> owner[g] == Held)
  }

  lemma HeldNext(owner: map<nat, Use>, f: nat, hi: nat)
    requires HeldRange(owner, f, hi) && f < hi
    ensures f in owner && owner[f] == Held && HeldRange(owner - {f}, f + 1, hi)
  {
    assert Between(f, f, hi);
    forall g: nat
      ensures g in owner - {f} <==> Between(g, f + 1, hi)
    {
      assert g in owner <==> Between(g, f, hi);
    }
  }

  /** No page is lost or handed out twice: free pages and pages in use add up to all there are. */
  lemma PagesConserved(r: Ram, lo: nat)
    requires Partition(r, lo) && lo <= |r.mem|
    ensures |r.free| + |r.owner| == |r.mem| - lo
  {
    var free := Elements(r.free);
    var all := Frames(lo, |r.mem|);
    assert free !! r.owner.Keys;
    assert free + r.owner.Keys == all;
    assert |r.owner| == |r.owner.Keys|;
  }

  lemma {:induction false} Elements(a: seq<nat>) returns (s: set<nat>)
    requires forall k: nat, l: nat :: k < l < |a| ==> a[k] != a[l]
    ensures |s| == |a| && forall f: nat :: f in s <==> f in a
  {
    s := {};
    if a != [] {
      s := Elements(a[..|a| - 1]);
      assert a == a[..|a| - 1] + [a[|a| - 1]] && a[|a| - 1] !in s;
      s := s + {a[|a| - 1]};
    }
  }

  lemma {:induction false} Frames(lo: nat, hi: nat) returns (s: set<nat>)
    requires lo <= hi
    ensures |s| == hi - lo && forall f: nat :: f in s <==> lo <= f < hi
    decreases hi
  {
    s := {};
    if lo < hi {
      s := Frames(lo, hi - 1);
      var last: nat := hi - 1;
      s := s + {last};
    }
  }

  /** Two user mappings that lead to one page are the same mapping. */
  lemma NoSharing(r: Ram, lo: nat, d: nat, v: nat, e: nat, x: nat)
    requires Pages.Valid(r, lo) && Is(r, d, Dir) && Is(r, e, Dir) && v < USER_PAGES && x < USER_PAGES
    requires Present(Entry(r.mem, d, v)) && Present(Entry(r.mem, e, x))
    requires Entry(r.mem, d, v).frame == Entry(r.mem, e, x).frame
    ensures d == e && v == x
  {
    Split(v);
    Split(x);
    assert Is(r, Entry(r.mem, d, v).frame, User(d, Pdx(v), Ptx(v)));
    assert Is(r, Entry(r.mem, e, x).frame, User(e, Pdx(x), Ptx(x)));
  }

  /** Growing, copying or taking down one address space leaves every page of every other where
      it was, with what it held. */
  lemma OthersKept(r: Ram, s: Ram, lo: nat, d: nat, e: nat, v: nat)
    requires Pages.Valid(r, lo) && Is(r, e, Dir) && e != d && v < ALL_PAGES
    requires Others(r, s, d)
    ensures Kept(r, s, e, v)
  {
    Split(v);
    if Present(r.mem[e][Pdx(v)]) {
      assert Is(r, r.mem[e][Pdx(v)].frame, Table(e, Pdx(v)));
    }
    if v < USER_PAGES && Present(Entry(r.mem, e, v)) {
      assert Is(r, Entry(r.mem, e, v).frame, User(e, Pdx(v), Ptx(v)));
    }
  }

  lemma ExtendsOthers(r: Ram, s: Ram, d: nat)
    requires Extends(r, s, d, {}) && (d !in r.owner || Is(r, d, Dir))
    ensures Others(r, s, d)
  {
  }

  lemma RestOthers(r: Ram, s: Ram, d: nat)
    requires |s.mem| == |r.mem| && s.owner == Rest(r.owner, d) && forall f: nat :: f in s.owner && f < |s.mem| ==> s.mem[f] == r.mem[f]
    ensures Others(r, s, d)
  {
  }

  lemma UnmappedOthers(r: Ram, s: Ram, d: nat, a: nat, b: nat)
    requires Unmapped(r, s, d, a, b)
    ensures Others(r, s, d)
  {
  }

  /** A failed setupkvm or copyuvm leaves every page of every address space. */
  lemma FailedCopyKeeps(r: Ram, s: Ram, lo: nat, e: nat, v: nat)
    requires Pages.Valid(r, lo) && Is(r, e, Dir) && v < ALL_PAGES && SamePages(r, s)
    ensures Kept(r, s, e, v)
  {
    Split(v);
    if Present(r.mem[e][Pdx(v)]) {
      assert Is(r, r.mem[e][Pdx(v)].frame, Table(e, Pdx(v)));
    }
    if v < USER_PAGES && Present(Entry(r.mem, e, v)) {
      assert Is(r, Entry(r.mem, e, v).frame, User(e, Pdx(v), Ptx(v)));
    }
  }

  /** A failed allocuvm leaves all mappings of the address space itself, and their contents. */
  lemma FailedAllocKeeps(r: Ram, s: Ram, lo: nat, d: nat, a: nat, v: nat)
    requires Pages.Valid(r, lo) && Is(r, d, Dir) && v < ALL_PAGES && Filled(r, s, d, a, a, {})
    ensures Kept(r, s, d, v)
  {
    Split(v);
    if v < USER_PAGES && Present(Entry(r.mem, d, v)) {
      assert Is(r, Entry(r.mem, d, v).frame, User(d, Pdx(v), Ptx(v)));
    }
  }

  /** deallocuvm keeps every page outside the range, mapping and contents. */
  lemma DeallocKeeps(r: Ram, s: Ram, lo: nat, d: nat, a: nat, b: nat, v: nat)
    requires Pages.Valid(r, lo) && Is(r, d, Dir) && v < ALL_PAGES && Unmapped(r, s, d, a, b) && !(a <= v < b)
    ensures Kept(r, s, d, v)
  {
    Split(v);
    if v < USER_PAGES && Present(Entry(r.mem, d, v)) {
      assert Is(r, Entry(r.mem, d, v).frame, User(d, Pdx(v), Ptx(v)));
    }
  }

  // ---- how many pages are needed ----

  /** The entries of a directory page from lo to hi that lead to no table. */
  function Missing(dir: Page, lo: nat, hi: nat): nat
    requires hi <= 1024
  {
    if hi <= lo then 0 else Missing(dir, lo, hi - 1) + if Present(dir[hi - 1]) then 0 else 1
  }

  lemma {:induction false} MissingMore(dir: Page, lo: nat, a: nat, b: nat)
    requires a <= b <= 1024
    ensures Missing(dir, lo, a) <= Missing(dir, lo, b)
    decreases b
  {
    if a < b {
      MissingMore(dir, lo, a, b - 1);
    }
  }

  lemma {:induction false} MissingAll(dir: Page, lo: nat, hi: nat)
    requires lo <= hi <= 1024 && forall k: nat :: lo <= k < hi ==> !Present(dir[k])
    ensures Missing(dir, lo, hi) == hi - lo
    decreases hi
  {
    if lo < hi {
      MissingAll(dir, lo, hi - 1);
    }
  }

  lemma {:induction false} MissingFrom(dir: Page, lo: nat, mid: nat, hi: nat)
    requires lo <= mid <= hi <= 1024 && forall k: nat :: lo <= k < mid ==> Present(dir[k])
    ensures Missing(dir, lo, hi) == Missing(dir, mid, hi)
    decreases hi
  {
    if mid < hi {
      MissingFrom(dir, lo, mid, hi - 1);
    } else if lo < hi {
      MissingFrom(dir, lo, mid - 1, hi - 1);
      assert Missing(dir, hi - 1, hi - 1) == 0;
    }
  }

  /** Where the tables for pages a .. v end. */
  function TopTable(a: nat, v: nat): nat {
    if v <= a then Pdx(a) else Pdx(v - 1) + 1
  }

  lemma TopStep(a: nat, v: nat)
    requires a <= v < ALL_PAGES
    ensures TopTable(a, v + 1) == Pdx(v) + 1 <= 1024
    ensures Pdx(v) == TopTable(a, v) || (Pdx(a) < TopTable(a, v) && Pdx(v) == TopTable(a, v) - 1)
  {
  }

  lemma TopMore(a: nat, v: nat, b: nat)
    requires a <= v <= b <= ALL_PAGES
    ensures TopTable(a, v) <= TopTable(a, b) && (a < ALL_PAGES ==> TopTable(a, b) <= 1024)
  {
  }

  /** A page for each page of the range, and one for each table that is not there. */
  function PagesNeeded(dir: Page, a: nat, b: nat): nat
    requires a <= b < ALL_PAGES
  {
    TopMore(a, b, b);
    b - a + Missing(dir, Pdx(a), TopTable(a, b))
  }

  lemma NeededMore(dir: Page, a: nat, v: nat, b: nat)
    requires a <= v <= b < ALL_PAGES
    ensures PagesNeeded(dir, a, v) <= PagesNeeded(dir, a, b)
  {
    TopMore(a, v, b);
    MissingMore(dir, Pdx(a), TopTable(a, v), TopTable(a, b));
  }

  /** s is r with extra pages taken, and a table for each entry lo .. hi of d that had none. */
  ghost predicate Counted(r: Ram, s: Ram, d: nat, lo: nat, hi: nat, extra: nat) {
    && |s.mem| == |r.mem| && d < |r.mem| && hi <= 1024
    && (forall k: nat :: k < 1024 ==> (Present(s.mem[d][k]) <==> Present(r.mem[d][k]) || lo <= k < hi))
    && |s.free| + extra + Missing(r.mem[d], lo, hi) == |r.free|
  }

  /** s is r with plus pages taken, and a table for entry i of d if it had none. */
  ghost predicate Tabled(r: Ram, s: Ram, d: nat, i: nat, plus: nat) {
    && |s.mem| == |r.mem| && d < |r.mem| && i < 1024
    && (forall k: nat :: k < 1024 ==> (Present(s.mem[d][k]) <==> Present(r.mem[d][k]) || k == i))
    && |s.free| + plus + (if Present(r.mem[d][i]) then 0 else 1) == |r.free|
  }

  /** Directory, 56 tables for physical memory, 8 for the devices. */
  const KERNEL_PAGES: nat := 65

  /** Where the tables of the first k kernel ranges end. */
  function KernelTop(data: nat, k: nat): nat
    requires 0x100 < data < 0xE000 && k <= 4
  {
    if k == 0 then 512 else if k == 1 then 513 else if k == 2 then Pdx(0x80000 + data - 1) + 1 else 568
  }

  /** The tables of the first k kernel ranges are there, no others, and they and the directory are
      what has been taken since r. */
  ghost predicate KernelTables(r: Ram, s: Ram, d: nat, data: nat, k: nat)
    requires 0x100 < data < 0xE000 && k <= 4
  {
    && d < |s.mem|
    && (forall i: nat :: i < 1024 ==> (Present(s.mem[d][i]) <==> 512 <= i < KernelTop(data, k) || (k == 4 && 1016 <= i)))
    && |s.free| + 1 + (KernelTop(data, k) - 512) + (if k == 4 then 8 else 0) == |r.free|
  }

  /** What the next kernel range takes. */
  lemma KernelCount(r: Ram, s: Ram, d: nat, data: nat, k: nat)
    requires 0x100 < data < 0xE000 && k < 4 && KernelTables(r, s, d, data, k)
    ensures var m := KernelMap(data, k);
            && TopTable(m.virt, m.end) == (if k < 3 then KernelTop(data, k + 1) else 1024)
            && Pdx(m.virt) <= (if k < 3 then KernelTop(data, k) else 1016) <= TopTable(m.virt, m.end)
            && 512 <= Pdx(m.virt)
            && Missing(s.mem[d], Pdx(m.virt), TopTable(m.virt, m.end)) == (if k < 3 then KernelTop(data, k + 1) - KernelTop(data, k) else 8)
  {
    var m := KernelMap(data, k);
    var lo, mid, hi := Pdx(m.virt), if k < 3 then KernelTop(data, k) else 1016, TopTable(m.virt, m.end);
    KernelRanges(data, k);
    MissingFrom(s.mem[d], lo, mid, hi);
    MissingAll(s.mem[d], mid, hi);
  }

  lemma KernelRanges(data: nat, k: nat)
    requires 0x100 < data < 0xE000 && k < 4
    ensures var m := KernelMap(data, k);
            && TopTable(m.virt, m.end) == (if k < 3 then KernelTop(data, k + 1) else 1024)
            && 512 <= Pdx(m.virt) <= (if k < 3 then KernelTop(data, k) else 1016) <= TopTable(m.virt, m.end)
            && (k == 3 ==> Pdx(m.virt) == 1016) && KernelTop(data, k) <= 568
  {
  }

  lemma KernelDone(r: Ram, s: Ram, d: nat, data: nat)
    requires 0x100 < data < 0xE000 && KernelSet(r, s, d, data, 4) && KernelTables(r, s, d, data, 4)
    ensures Others(r, s, d) && |r.free| >= KERNEL_PAGES
  {
    ExtendsOthers(r, s, d);
  }

  lemma KernelShort(r: Ram, s: Ram, d: nat, data: nat, k: nat)
    requires 0x100 < data < 0xE000 && k < 4 && KernelTables(r, s, d, data, k)
    requires var m := KernelMap(data, k); TopTable(m.virt, m.end) <= 1024 && |s.free| < Missing(s.mem[d], Pdx(m.virt), TopTable(m.virt, m.end))
    ensures |r.free| < KERNEL_PAGES
  {
    KernelCount(r, s, d, data, k);
    KernelRanges(data, k);
    if k < 3 {
      assert KernelTop(data, k + 1) <= 568;
    }
  }

  lemma KernelClear(r: Ram, s: Ram, d: nat, data: nat, k: nat)
    requires 0x100 < data < 0xE000 && k < 4 && KernelSet(r, s, d, data, k)
    ensures var m := KernelMap(data, k); forall v: nat :: m.virt <= v < m.end ==> !Present(Entry(s.mem, d, v))
  {
    var m := KernelMap(data, k);
    forall v: nat | m.virt <= v < m.end
      ensures !Present(Entry(s.mem, d, v))
    {
      KernelApart(data, k, v);
    }
  }

  lemma KernelMoreTables(r: Ram, s: Ram, u: Ram, d: nat, data: nat, k: nat, next: nat)
    requires 0x100 < data < 0xE000 && k < 4 && next == k + 1 && KernelTables(r, s, d, data, k)
    requires var m := KernelMap(data, k);
             TopTable(m.virt, m.end) <= 1024 && Counted(s, u, d, Pdx(m.virt), TopTable(m.virt, m.end), 0)
    ensures KernelTables(r, u, d, data, next)
  {
    KernelCount(r, s, d, data, k);
    KernelRanges(data, k);
  }

  lemma TableApart(u: Ram, lo: nat, d: nat, i: nat)
    requires Pages.Valid(u, lo) && Is(u, d, Dir) && i < 1024 && d < |u.mem| && Present(u.mem[d][i])
    ensures u.mem[d][i].frame != d
  {
    assert Is(u, u.mem[d][i].frame, Table(d, i));
  }

  /** One more page needs its table, or finds that it is there. */
  lemma CountStep(r: Ram, s: Ram, u: Ram, d: nat, lo: nat, hi: nat, extra: nat, i: nat, plus: nat, hi': nat, extra': nat)
    requires Counted(r, s, d, lo, hi, extra) && Tabled(s, u, d, i, plus) && lo <= i && hi' == i + 1 && extra' == extra + plus
    requires i == hi || (lo < hi && i == hi - 1)
    ensures Counted(r, u, d, lo, hi', extra')
  {
  }

  lemma CountShort(r: Ram, s: Ram, d: nat, lo: nat, hi: nat, extra: nat, i: nat, plus: nat, hi': nat, extra': nat)
    requires Counted(r, s, d, lo, hi, extra) && i < 1024 && lo <= i && (i == hi || (lo < hi && i == hi - 1)) && hi' == i + 1 && extra' == extra + plus
    requires |s.free| < plus + if Present(s.mem[d][i]) then 0 else 1
    ensures |r.free| < extra' + Missing(r.mem[d], lo, hi')
  {
  }

  class Memory {
    var mem: seq<Page>
    var freelist: Word
    const lo: nat
    ghost var owner: map<nat, Use>
    ghost var free: seq<nat>

    ghost function Now(): Ram
      reads this
    {
      Ram(mem, owner, free)
    }

    ghost predicate Valid()
      reads this
    {
      Pages.Valid(Now(), lo) && freelist == Pointer(free)
    }

    /** kinit1, kinit2: every page from lo on is freed once. */
    constructor (contents: seq<Page>, first: nat)
      requires 0 < first <= |contents|
      ensures Valid() && lo == first && owner == map[] && |mem| == |contents|
    {
      mem := contents;
      lo := first;
      freelist := ZERO;
      free := [];
      owner := map f: nat | first <= f < |contents| && Between(f, first, |contents|) :: Held;
      new;
      FreeRange(first, |contents|);
    }

    method FreeRange(first: nat, end: nat)
      requires Valid() && first <= end && HeldRange(owner, first, end)
      modifies this
      ensures Valid() && owner == map[] && |mem| == |old(mem)|
    {
      var f := first;
      while f < end
        invariant first <= f <= end && |mem| == |old(mem)| && Valid()
        invariant HeldRange(owner, f, end)
      {
        HeldNext(owner, f, end);
        Kfree(f);
        f := f + 1;
      }
      assert owner == map[];
    }

    method Kalloc() returns (r: Option<nat>)
      requires Valid()
      modifies this
      ensures Valid()
      ensures r.None? <==> old(free) == []
      ensures r.None? ==> Now() == old(Now())
      ensures r.Some? ==> r.value == old(free)[0] && Now() == Take(old(Now())) && r.value !in old(owner)
      ensures r.Some? ==> Is(Now(), r.value, Held) && r.value < |mem|
    {
      if freelist == ZERO {
        return None;
      }
      var f := freelist.frame - 0x80000;
      ghost var taken := Take(Now());
      TakeValid(Now(), lo);
      freelist := mem[f][0];
      owner, free := taken.owner, taken.free;
      r := Some(f);
    }

    method Kfree(f: nat)
      requires Valid() && Is(Now(), f, Held)
      modifies this
      ensures Valid() && Now() == Release(old(Now()), f)
      ensures forall d: nat, i: nat, j: nat :: Is(old(Now()), d, Dir) && i < 1024 && j < 1024 ==>
        Pte(mem, d, i, j) == Pte(old(mem), d, i, j)
    {
      ReleaseValid(Now(), lo, f);
      var junk := seq(1024, i => Word(0x01010, 0x101));
      mem := mem[f := junk[0 := freelist]];
      freelist := Word(0x80000 + f, 0);
      owner, free := owner - {f}, [f] + free;
    }

    /** A directory entry is present or gets a cleared table of its own; no mapping changes. */
    method WalkPgdir(d: nat, v: nat, alloc: bool) returns (t: Option<nat>)
      requires Valid() && Is(Now(), d, Dir) && v < ALL_PAGES
      modifies this
      ensures Valid() && |mem| == |old(mem)|
      ensures !alloc ==> Now() == old(Now())
      ensures t.None? ==> Now() == old(Now()) && !Present(mem[d][Pdx(v)]) && (alloc ==> free == [])
      ensures t.Some? ==> Present(mem[d][Pdx(v)]) && mem[d][Pdx(v)].frame == t.value < |mem|
      ensures t.Some? && Present(old(mem)[d][Pdx(v)]) ==> Now() == old(Now())
      ensures t.Some? && !Present(old(mem)[d][Pdx(v)]) ==> alloc
      ensures Walked(old(Now()), Now(), d, Pdx(v))
      ensures t.Some? ==> Tabled(old(Now()), Now(), d, Pdx(v), 0)
    {
      var pde := mem[d][Pdx(v)];
      if Present(pde) {
        assert Is(Now(), pde.frame, Table(d, Pdx(v)));
        return Some(pde.frame);
      }
      if !alloc {
        return None;
      }
      t := Kalloc();
      if t.None? {
        return;
      }
      ghost var taken := Now();
      FillValid(taken, lo, t.value, ZeroPage());
      AddTableValid(Fill(taken, t.value, ZeroPage()), lo, d, Pdx(v), t.value);
      mem := mem[t.value := ZeroPage()];
      mem := mem[d := mem[d][Pdx(v) := Word(t.value, 7)]];
      owner := owner[t.value := Table(d, Pdx(v))];
      assert Now() == AddTable(Fill(taken, t.value, ZeroPage()), d, Pdx(v), t.value);
    }

    /** Clears the entry of page v and gives its page back. */
    method FreePage(d: nat, v: nat, t: nat, ghost r: Ram, ghost a: nat)
      requires Valid() && Is(Now(), d, Dir) && a <= v < USER_PAGES && Unmapped(r, Now(), d, a, v)
      requires Present(mem[d][Pdx(v)]) && mem[d][Pdx(v)].frame == t < |mem| && Present(mem[t][Ptx(v)])
      modifies this
      ensures Valid() && Is(Now(), d, Dir) && Unmapped(r, Now(), d, a, v + 1)
    {
      UnmapStep(r, Now(), lo, d, a, v);
      var f := mem[t][Ptx(v)].frame;
      mem := mem[t := mem[t][Ptx(v) := ZERO]];
      owner := owner[f := Held];
      Kfree(f);
    }

    method DeallocPage(d: nat, v: nat, t: nat, ghost r: Ram, ghost a: nat)
      requires Valid() && Is(Now(), d, Dir) && a <= v < USER_PAGES && Unmapped(r, Now(), d, a, v)
      requires Present(mem[d][Pdx(v)]) && mem[d][Pdx(v)].frame == t < |mem|
      modifies this
      ensures Valid() && Is(Now(), d, Dir) && Unmapped(r, Now(), d, a, v + 1)
    {
      if Present(mem[t][Ptx(v)]) {
        FreePage(d, v, t, r, a);
      } else {
        SkipStep(r, Now(), lo, d, a, v, v + 1);
      }
    }

    /** One round of deallocuvm's loop: the next page to look at, at most end of them done. */
    method DeallocRound(d: nat, v: nat, ghost r: Ram, ghost a: nat, ghost end: nat) returns (next: nat, ghost done: nat)
      requires Valid() && Is(Now(), d, Dir) && a <= v < end <= USER_PAGES && Unmapped(r, Now(), d, a, v)
      modifies this
      ensures Valid() && Is(Now(), d, Dir) && v < done <= end && Unmapped(r, Now(), d, a, done)
      ensures next == done || (next > end == done)
    {
      var t := WalkPgdir(d, v, false);
      if t.None? {
        next := (Pdx(v) + 1) * 1024;
        done := if next <= end then next else end;
        Skipped(mem, d, v, done);
        SkipStep(r, Now(), lo, d, a, v, done);
      } else {
        next, done := v + 1, v + 1;
        DeallocPage(d, v, t.value, r, a);
      }
    }

    /** Unmaps and frees exactly the user pages between newsz and oldsz. Where a whole table is
        missing the loop jumps to the next one. */
    method DeallocUvm(d: nat, oldsz: nat, newsz: nat) returns (r: nat)
      requires Valid() && Is(Now(), d, Dir) && oldsz <= KERNBASE
      modifies this
      ensures Valid() && Is(Now(), d, Dir)
      ensures newsz >= oldsz ==> r == oldsz && Now() == old(Now())
      ensures newsz < oldsz ==> r == newsz && Unmapped(old(Now()), Now(), d, RoundUp(newsz), RoundUp(oldsz))
      ensures Others(old(Now()), Now(), d)
    {
      if newsz >= oldsz {
        return oldsz;
      }
      ghost var was, end := Now(), RoundUp(oldsz);
      var v := RoundUp(newsz);
      ghost var done := v;
      UnmappedNone(was, d, v);
      while v * PGSIZE < oldsz
        invariant RoundUp(newsz) <= done <= end <= USER_PAGES && (done == v || v > end == done)
        invariant Valid() && Is(Now(), d, Dir) && Unmapped(was, Now(), d, RoundUp(newsz), done)
        decreases end - done
      {
        v, done := DeallocRound(d, v, was, RoundUp(newsz), end);
      }
      UnmappedOthers(was, Now(), d, RoundUp(newsz), done);
      r := newsz;
    }

    /** mappages for one user page: the page that was Held becomes page v of d, or there is no
        memory for its table and nothing changes. */
    method MapUserPage(d: nat, v: nat, f: nat, perm: nat) returns (ok: bool)
      requires Valid() && Is(Now(), d, Dir) && v < USER_PAGES && !Present(Entry(mem, d, v)) && Is(Now(), f, Held)
      modifies this
      ensures Valid() && |mem| == |old(mem)|
      ensures !ok ==> Now() == old(Now()) && free == [] && !Present(mem[d][Pdx(v)])
      ensures ok ==> UserMapped(old(Now()), Now(), d, v, Word(f, OrPresent(perm)))
      ensures ok ==> Tabled(old(Now()), Now(), d, Pdx(v), 0)
    {
      ghost var was := Now();
      Split(v);
      var t := WalkPgdir(d, v, true);
      if t.None? {
        return false;
      }
      EnterPage(d, v, t.value, Word(f, OrPresent(perm)), was);
      ok := true;
    }

    /** The entry of page v is written into its table. */
    method EnterPage(d: nat, v: nat, t: nat, w: Word, ghost was: Ram)
      requires Valid() && Is(Now(), d, Dir) && Is(was, d, Dir) && v < USER_PAGES && Walked(was, Now(), d, Pdx(v)) && Tabled(was, Now(), d, Pdx(v), 0)
      requires Is(was, w.frame, Held) && Present(w) && !Present(Entry(was.mem, d, v))
      requires Present(mem[d][Pdx(v)]) && mem[d][Pdx(v)].frame == t < |mem|
      modifies this`mem, this`owner
      ensures Valid() && UserMapped(was, Now(), d, v, w) && Tabled(was, Now(), d, Pdx(v), 0)
    {
      UserStep(was, Now(), lo, d, v, w);
      TableApart(Now(), lo, d, Pdx(v));
      ghost var to := MapUser(Now(), d, Pdx(v), Ptx(v), w);
      mem := mem[t := mem[t][Ptx(v) := w]];
      owner := owner[w.frame := User(d, Pdx(v), Ptx(v))];
      assert Now() == to;
    }

    /** A newly allocated page that holds p. */
    method NewPage(p: Page) returns (f: Option<nat>)
      requires Valid()
      modifies this
      ensures Valid() && |mem| == |old(mem)|
      ensures f.None? ==> Now() == old(Now()) && free == []
      ensures f.Some? ==> f.value !in old(owner) && Is(Now(), f.value, Held) && f.value < |mem| && mem[f.value] == p
      ensures f.Some? ==> owner == old(owner)[f.value := Held] && mem == old(mem)[f.value := p] && |free| == |old(free)| - 1
      ensures forall d: nat, i: nat, j: nat :: Is(old(Now()), d, Dir) && i < 1024 && j < 1024 ==>
        Pte(mem, d, i, j) == Pte(old(mem), d, i, j)
    {
      f := Kalloc();
      if f.None? {
        return;
      }
      FillValid(Now(), lo, f.value, p);
      mem := mem[f.value := p];
    }

    /** A page that holds p becomes page v of d: one round of the loops of allocuvm and copyuvm.
        Without ok, f tells whether a page was got that could not be mapped for want of a table. */
    method AddPage(d: nat, v: nat, p: Page, perm: nat) returns (f: Option<nat>, ok: bool)
      requires Valid() && Is(Now(), d, Dir) && v < USER_PAGES && !Present(Entry(mem, d, v))
      modifies this
      ensures Valid() && Is(Now(), d, Dir) && |mem| == |old(mem)|
      ensures f.None? ==> !ok && Now() == old(Now())
      ensures !ok ==> free == []
      ensures f.Some? && !ok ==> Extends(old(Now()), Now(), d, {f.value}) && Is(Now(), f.value, Held)
      ensures f.Some? && !ok ==> f.value !in old(owner)
      ensures f.Some? && !ok ==> forall x: nat :: x < ALL_PAGES ==> Entry(mem, d, x) == Entry(old(mem), d, x)
      ensures ok ==> f.Some? && f.value < |mem| && mem[f.value] == p
      ensures ok ==> AddedPage(old(Now()), Now(), d, v, f.value, Word(f.value, OrPresent(perm)))
      ensures ok ==> Tabled(old(Now()), Now(), d, Pdx(v), 1)
      ensures !ok ==> |old(free)| < 1 + if Present(old(mem)[d][Pdx(v)]) then 0 else 1
    {
      ghost var was := Now();
      Split(v);
      f := NewPage(p);
      if f.None? {
        return f, false;
      }
      ghost var got := Now();
      assert forall g: nat :: g in was.owner ==> got.mem[g] == was.mem[g] && got.owner[g] == was.owner[g];
      ok := MapUserPage(d, v, f.value, perm);
      if ok {
        AddedEntries(was.mem, mem, d, v, Word(f.value, OrPresent(perm)));
      }
    }

    /** allocuvm's way out when memory runs short after the pages below v. */
    method Undo(d: nat, oldsz: nat, newsz: nat, f: Option<nat>, ghost r: Ram, ghost v: nat)
      requires Pages.Valid(r, lo) && Is(r, d, Dir) && oldsz < newsz < KERNBASE
      requires forall x: nat :: RoundUp(oldsz) <= x < RoundUp(newsz) ==> !Present(Entry(r.mem, d, x))
      requires Valid() && Is(Now(), d, Dir) && RoundUp(oldsz) <= v <= RoundUp(newsz)
      requires Filled(r, Now(), d, RoundUp(oldsz), v, if f.Some? then {f.value} else {})
      requires f.Some? ==> Is(Now(), f.value, Held) && f.value !in r.owner
      modifies this
      ensures Valid() && Is(Now(), d, Dir) && Filled(r, Now(), d, RoundUp(oldsz), RoundUp(oldsz), {})
    {
      ghost var before := Now();
      var size := DeallocUvm(d, newsz, oldsz);
      BackOut(r, before, Now(), lo, d, RoundUp(oldsz), v, RoundUp(newsz), if f.Some? then {f.value} else {});
      if f.Some? {
        ghost var held := Now();
        Kfree(f.value);
        GiveBack(r, held, d, RoundUp(oldsz), f.value);
      }
    }

    /** Grows d from oldsz to newsz with zeroed pages. It fails exactly when too few pages are
        free for these pages and their tables; then every mapping is as before. No page of another
        address space is touched. */
    method AllocUvm(d: nat, oldsz: nat, newsz: nat) returns (r: nat, ghost ok: bool)
      requires Valid() && Is(Now(), d, Dir)
      requires oldsz <= newsz < KERNBASE ==>
        forall x: nat :: RoundUp(oldsz) <= x < RoundUp(newsz) ==> !Present(Entry(mem, d, x))
      modifies this
      ensures Valid() && Is(Now(), d, Dir)
      ensures newsz >= KERNBASE ==> !ok && r == 0 && Now() == old(Now())
      ensures newsz < KERNBASE && newsz < oldsz ==> r == oldsz && Now() == old(Now())
      ensures oldsz <= newsz < KERNBASE && ok ==>
        r == newsz && Filled(old(Now()), Now(), d, RoundUp(oldsz), RoundUp(newsz), {})
      ensures oldsz <= newsz < KERNBASE && !ok ==>
        r == 0 && Filled(old(Now()), Now(), d, RoundUp(oldsz), RoundUp(oldsz), {})
      ensures oldsz <= newsz < KERNBASE ==>
        (ok <==> |old(free)| >= PagesNeeded(old(mem)[d], RoundUp(oldsz), RoundUp(newsz)))
      ensures Others(old(Now()), Now(), d)
    {
      if newsz >= KERNBASE {
        return 0, false;
      }
      if newsz < oldsz {
        return oldsz, true;
      }
      r, ok := Grow(d, oldsz, newsz);
      ExtendsOthers(old(Now()), Now(), d);
    }

    /** One round of allocuvm's loop, counting what it takes. */
    method GrowPage(d: nat, v: nat, ghost r: Ram, ghost a: nat, ghost top: nat, ghost extra: nat)
      returns (f: Option<nat>, got: bool, next: nat, ghost top': nat, ghost extra': nat)
      requires Pages.Valid(r, lo) && Valid() && Is(Now(), d, Dir) && a <= v < USER_PAGES && !Present(Entry(mem, d, v))
      requires Filled(r, Now(), d, a, v, {}) && Counted(r, Now(), d, Pdx(a), top, extra) && top == TopTable(a, v) && extra == v - a
      modifies this
      ensures Valid() && Is(Now(), d, Dir) && next == v + 1 && top' == TopTable(a, next) && extra' == next - a
      ensures got ==> Filled(r, Now(), d, a, next, {}) && Counted(r, Now(), d, Pdx(a), top', extra')
      ensures !got ==> Filled(r, Now(), d, a, v, if f.Some? then {f.value} else {}) && |r.free| < PagesNeeded(r.mem[d], a, next)
      ensures !got && f.Some? ==> Is(Now(), f.value, Held) && f.value !in r.owner
    {
      next := v + 1;
      TopStep(a, v);
      top', extra' := Pdx(v) + 1, next - a;
      f, got := GrowOne(d, v, r, Now(), a, top, extra, next, top', extra');
    }

    /** The round from the memory before: the page is added, or the count was too small. */
    method GrowOne(d: nat, v: nat, ghost r: Ram, ghost before: Ram, ghost a: nat, ghost top: nat, ghost extra: nat,
                   ghost next: nat, ghost top': nat, ghost extra': nat) returns (f: Option<nat>, got: bool)
      requires Pages.Valid(r, lo) && Valid() && before == Now() && Is(before, d, Dir) && a <= v < USER_PAGES && !Present(Entry(mem, d, v))
      requires Filled(r, before, d, a, v, {}) && Counted(r, before, d, Pdx(a), top, extra) && top == TopTable(a, v) && extra == v - a
      requires next == v + 1 && top' == TopTable(a, next) == Pdx(v) + 1 && extra' == extra + 1 == next - a
      requires Pdx(a) <= Pdx(v) < 1024 && (Pdx(v) == top || (Pdx(a) < top && Pdx(v) == top - 1))
      modifies this
      ensures Valid() && Is(Now(), d, Dir)
      ensures got ==> Filled(r, Now(), d, a, next, {}) && Counted(r, Now(), d, Pdx(a), top', extra')
      ensures !got ==> Filled(r, Now(), d, a, v, if f.Some? then {f.value} else {}) && |r.free| < PagesNeeded(r.mem[d], a, next)
      ensures !got && f.Some? ==> Is(Now(), f.value, Held) && f.value !in r.owner
    {
      f, got := AddPage(d, v, ZeroPage(), 6);
      if got {
        FilledStep(r, before, Now(), lo, d, a, v, f.value, next);
        CountStep(r, before, Now(), d, Pdx(a), top, extra, Pdx(v), 1, top', extra');
      } else {
        CountShort(r, before, d, Pdx(a), top, extra, Pdx(v), 1, top', extra');
        if f.Some? {
          StuckFilled(r, before, Now(), lo, d, a, v, f.value);
        }
      }
    }

    /** The loop of allocuvm. */
    method Grow(d: nat, oldsz: nat, newsz: nat) returns (r: nat, ghost ok: bool)
      requires Valid() && Is(Now(), d, Dir) && oldsz <= newsz < KERNBASE
      requires forall x: nat :: RoundUp(oldsz) <= x < RoundUp(newsz) ==> !Present(Entry(mem, d, x))
      modifies this
      ensures Valid() && Is(Now(), d, Dir)
      ensures ok ==> r == newsz && Filled(old(Now()), Now(), d, RoundUp(oldsz), RoundUp(newsz), {})
      ensures !ok ==> r == 0 && Filled(old(Now()), Now(), d, RoundUp(oldsz), RoundUp(oldsz), {})
      ensures ok <==> |old(free)| >= PagesNeeded(old(mem)[d], RoundUp(oldsz), RoundUp(newsz))
    {
      ghost var was, a, b := Now(), RoundUp(oldsz), RoundUp(newsz);
      var v := RoundUp(oldsz);
      ghost var top, extra := Pdx(a), 0;
      while v * PGSIZE < newsz
        invariant a <= v <= b && top == TopTable(a, v) && extra == v - a
        invariant Valid() && Is(Now(), d, Dir) && Filled(was, Now(), d, a, v, {}) && Counted(was, Now(), d, Pdx(a), top, extra)
      {
        assert Entry(mem, d, v) == Entry(was.mem, d, v);
        var f, got, next;
        f, got, next, top, extra := GrowPage(d, v, was, a, top, extra);
        if !got {
          NeededMore(was.mem[d], a, next, b);
          Undo(d, oldsz, newsz, f, was, v);
          return 0, false;
        }
        v := next;
      }
      assert v == b;
      return newsz, true;
    }

    method FreeTable(d: nat, i: nat, ghost r: Ram)
      requires Pages.Valid(r, lo) && Is(r, d, Dir) && i < 1024 && Valid() && Freeing(r, Now(), d, i)
      modifies this
      ensures Valid() && Freeing(r, Now(), d, i + 1)
    {
      if Present(mem[d][i]) {
        TablesDistinct(r, lo, d, i);
        ghost var before, f := Now(), mem[d][i].frame;
        Kfree(mem[d][i].frame);
        FreeingNext(r, before, Now(), d, i, f);
      }
    }

    /** The loop of freevm over the directory's entries, and the directory itself. */
    method FreeTables(d: nat, ghost r: Ram)
      requires Pages.Valid(r, lo) && Is(r, d, Dir)
      requires Valid() && Now() == Dismantle(r, d)
      modifies this
      ensures Valid() && |mem| == |r.mem| && owner == Dismantle(r, d).owner - TablesBelow(r.mem[d], 1024) - {d}
      ensures forall f: nat :: f in owner ==> f < |mem| && mem[f] == r.mem[f]
    {
      var i := 0;
      while i < 1024
        invariant 0 <= i <= 1024 && Valid() && Freeing(r, Now(), d, i)
      {
        FreeTable(d, i, r);
        i := i + 1;
      }
      FreeDirectory(d, r);
    }

    method FreeDirectory(d: nat, ghost r: Ram)
      requires d < |r.mem| && Valid() && Freeing(r, Now(), d, 1024)
      modifies this
      ensures Valid() && |mem| == |r.mem| && owner == Dismantle(r, d).owner - TablesBelow(r.mem[d], 1024) - {d}
      ensures forall f: nat :: f in owner ==> f < |mem| && mem[f] == r.mem[f]
    {
      Kfree(d);
    }

    /** Gives back the directory, its tables and its user pages, and nothing else. */
    method FreeVm(d: nat)
      requires Valid() && Is(Now(), d, Dir)
      modifies this
      ensures Valid() && |mem| == |old(mem)| && owner == Rest(old(owner), d)
      ensures forall f: nat :: f in owner ==> f < |mem| && mem[f] == old(mem)[f]
      ensures Others(old(Now()), Now(), d)
    {
      ghost var was := Now();
      var size := DeallocUvm(d, KERNBASE, 0);
      ghost var r := Now();
      AllGone(was, r, lo, d);
      DismantleValid(r, lo, d);
      owner := Dismantle(r, d).owner;
      FreeTables(d, r);
      RestOthers(was, Now(), d);
    }

    /** One round of mappages in the kernel half. */
    method MapKernelPage(d: nat, v: nat, pa: nat, perm: nat) returns (ok: bool)
      requires Valid() && Is(Now(), d, Dir) && USER_PAGES <= v < ALL_PAGES && !Present(Entry(mem, d, v))
      modifies this
      ensures Valid() && Is(Now(), d, Dir)
      ensures !ok ==> Now() == old(Now()) && free == [] && !Present(mem[d][Pdx(v)])
      ensures ok ==> KernelMapped(old(Now()), Now(), d, v, v + 1, pa, perm) && Tabled(old(Now()), Now(), d, Pdx(v), 0)
    {
      Split(v);
      ghost var was := Now();
      var t := WalkPgdir(d, v, true);
      if t.None? {
        return false;
      }
      KernelStep(was, Now(), lo, d, v, pa, perm);
      TableApart(Now(), lo, d, Pdx(v));
      mem := mem[t.value := mem[t.value][Ptx(v) := Word(pa, OrPresent(perm))]];
      ok := true;
    }

    /** One round of mappages, counting the tables it takes. */
    method KernelRound(d: nat, v: nat, pa: nat, perm: nat, ghost r: Ram, ghost a: nat, ghost start: nat, ghost top: nat)
      returns (ok: bool, ghost next: nat, ghost top': nat)
      requires Valid() && Is(Now(), d, Dir) && USER_PAGES <= a <= v < ALL_PAGES && !Present(Entry(mem, d, v)) && pa == start + (v - a)
      requires KernelMapped(r, Now(), d, a, v, start, perm) && Counted(r, Now(), d, Pdx(a), top, 0) && top == TopTable(a, v)
      modifies this
      ensures Valid() && Is(Now(), d, Dir) && next == v + 1 && top' == TopTable(a, next) <= 1024
      ensures ok ==> KernelMapped(r, Now(), d, a, next, start, perm) && Counted(r, Now(), d, Pdx(a), top', 0)
      ensures !ok ==> Now() == old(Now()) && |r.free| < Missing(r.mem[d], Pdx(a), top')
    {
      ghost var before := Now();
      TopStep(a, v);
      next, top' := v + 1, Pdx(v) + 1;
      ok := MapKernelPage(d, v, pa, perm);
      if ok {
        KernelMore(r, before, Now(), d, a, v, next, start, pa, perm);
        CountStep(r, before, Now(), d, Pdx(a), top, 0, Pdx(v), 0, top', 0);
      } else {
        CountShort(r, before, d, Pdx(a), top, 0, Pdx(v), 0, top', 0);
      }
    }

    /** mappages for a range of the kernel half. It fails exactly when there are too few free pages
        for the tables that are missing. */
    method MapKernelPages(d: nat, m: KMap) returns (ok: bool)
      requires Valid() && Is(Now(), d, Dir) && USER_PAGES <= m.virt < m.end <= ALL_PAGES
      requires forall v: nat :: m.virt <= v < m.end ==> !Present(Entry(mem, d, v))
      modifies this
      ensures Valid() && Is(Now(), d, Dir) && Extends(old(Now()), Now(), d, {})
      ensures ok ==> KernelMapped(old(Now()), Now(), d, m.virt, m.end, m.start, m.perm)
      ensures ok ==> Counted(old(Now()), Now(), d, Pdx(m.virt), TopTable(m.virt, m.end), 0)
      ensures TopTable(m.virt, m.end) <= 1024
      ensures ok <==> |old(free)| >= Missing(old(mem)[d], Pdx(m.virt), TopTable(m.virt, m.end))
    {
      ghost var was, a, b := Now(), m.virt, m.end;
      var v, last, pa := m.virt, m.end - 1, m.start;
      ghost var top, next := Pdx(a), a;
      TopMore(a, a, b);
      while true
        invariant a <= v <= last && pa == m.start + (v - a) && top == TopTable(a, v)
        invariant Valid() && Is(Now(), d, Dir) && KernelMapped(was, Now(), d, a, v, m.start, m.perm) && Counted(was, Now(), d, Pdx(a), top, 0)
        decreases last - v
      {
        ok, next, top := KernelRound(d, v, pa, m.perm, was, a, m.start, top);
        if !ok {
          TopMore(a, next, b);
          MissingMore(was.mem[d], Pdx(a), top, TopTable(a, b));
          return;
        }
        if v == last {
          assert next == b;
          break;
        }
        v, pa := v + 1, pa + 1;
        assert v == next;
      }
    }

    /** freevm of an address space made since r. */
    method TakeDown(d: nat, ghost r: Ram)
      requires Pages.Valid(r, lo) && d !in r.owner && Valid() && Is(Now(), d, Dir) && Extends(r, Now(), d, {})
      modifies this
      ensures Valid() && SamePages(r, Now())
    {
      NoneOf(r, lo, d);
      BackTo(r, Now(), d);
      FreeVm(d);
    }

    method NewDirectory(ghost data: nat) returns (d: Option<nat>)
      requires Valid() && 0x100 < data < 0xE000
      modifies this
      ensures Valid()
      ensures d.None? ==> Now() == old(Now()) && free == []
      ensures d.Some? ==> KernelSet(old(Now()), Now(), d.value, data, 0) && KernelTables(old(Now()), Now(), d.value, data, 0)
    {
      ghost var was := Now();
      d := NewPage(ZeroPage());
      if d.None? {
        return;
      }
      NewKernel(was, Now(), lo, d.value, data);
      owner := owner[d.value := Dir];
    }

    method SetupRound(d: nat, data: nat, k: nat, ghost r: Ram) returns (ok: bool, next: nat)
      requires Pages.Valid(r, lo) && Valid() && 0x100 < data < 0xE000 && k < 4
      requires KernelSet(r, Now(), d, data, k) && KernelTables(r, Now(), d, data, k)
      modifies this
      ensures Valid() && next == k + 1
      ensures ok ==> KernelSet(r, Now(), d, data, next) && KernelTables(r, Now(), d, data, next)
      ensures !ok ==> SamePages(r, Now()) && |r.free| < KERNEL_PAGES
    {
      ghost var before := Now();
      var m := KernelMap(data, k);
      next := k + 1;
      KernelClear(r, before, d, data, k);
      ok := MapKernelPages(d, m);
      if ok {
        KernelNext(r, before, Now(), d, data, k, next);
        KernelMoreTables(r, before, Now(), d, data, k, next);
      } else {
        KernelShort(r, before, d, data, k);
        ExtendsMore(r, before, Now(), d);
        TakeDown(d, r);
      }
    }

    /** A new directory with the kernel half filled in and an empty user half. It takes
        KERNEL_PAGES pages; when fewer are free, every page taken on the way is given back. */
    method SetupKvm(data: nat) returns (d: Option<nat>)
      requires Valid() && 0x100 < data < 0xE000
      modifies this
      ensures Valid()
      ensures d.None? ==> SamePages(old(Now()), Now())
      ensures d.Some? ==> KernelSet(old(Now()), Now(), d.value, data, 4) && Others(old(Now()), Now(), d.value)
      ensures d.Some? ==> KernelTables(old(Now()), Now(), d.value, data, 4)
      ensures d.Some? <==> |old(free)| >= KERNEL_PAGES
    {
      ghost var was := Now();
      d := NewDirectory(data);
      if d.None? {
        return;
      }
      var ok := FillKernel(d.value, data, was);
      if !ok {
        return None;
      }
    }

    /** The loop of setupkvm over the kernel ranges. */
    method FillKernel(d: nat, data: nat, ghost r: Ram) returns (ok: bool)
      requires Pages.Valid(r, lo) && Valid() && 0x100 < data < 0xE000
      requires KernelSet(r, Now(), d, data, 0) && KernelTables(r, Now(), d, data, 0)
      modifies this
      ensures Valid()
      ensures ok ==> KernelSet(r, Now(), d, data, 4) && KernelTables(r, Now(), d, data, 4)
      ensures ok ==> Others(r, Now(), d) && |r.free| >= KERNEL_PAGES
      ensures !ok ==> SamePages(r, Now()) && |r.free| < KERNEL_PAGES
    {
      var k := 0;
      while k < 4
        invariant 0 <= k <= 4 && Valid() && KernelSet(r, Now(), d, data, k) && KernelTables(r, Now(), d, data, k)
      {
        ok, k := SetupRound(d, data, k, r);
        if !ok {
          return;
        }
      }
      assert k == 4;
      ok := true;
      KernelDone(r, Now(), d, data);
    }

    /** copyuvm's way out: the page that could not be mapped, then the new address space. */
    method DropCopy(c: nat, f: Option<nat>, ghost r: Ram, ghost s: Ram)
      requires Pages.Valid(r, lo) && c !in r.owner && Valid() && Is(Now(), c, Dir) && Extends(r, s, c, {})
      requires f.None? ==> Now() == s
      requires f.Some? ==> f.value !in s.owner && Is(Now(), f.value, Held) && Extends(s, Now(), c, {f.value})
      modifies this
      ensures Valid() && SamePages(r, Now())
    {
      if f.Some? {
        ExtendsHeld(r, s, Now(), c, f.value);
        Kfree(f.value);
      }
      TakeDown(c, r);
    }

    /** One round of copyuvm's loop; s0 is the memory after setupkvm. */
    method CopyRound(d: nat, c: nat, v: nat, ghost data: nat, ghost r: Ram, ghost s0: Ram, ghost top: nat)
      returns (ok: bool, next: nat, ghost top': nat)
      requires Pages.Valid(r, lo) && Is(r, d, Dir) && 0x100 < data < 0xE000 && v < USER_PAGES
      requires forall x: nat :: x <= v ==> Present(Entry(r.mem, d, x))
      requires Valid() && Copied(r, Now(), d, c, data, v) && Counted(s0, Now(), c, 0, top, v) && top == TopTable(0, v)
      modifies this
      ensures Valid() && next == v + 1 && top' == TopTable(0, next) <= 1024
      ensures ok ==> Copied(r, Now(), d, c, data, next) && Counted(s0, Now(), c, 0, top', next)
      ensures !ok ==> SamePages(r, Now()) && |s0.free| < next + Missing(s0.mem[c], 0, top')
    {
      ghost var before := Now();
      TopStep(0, v);
      next, top' := v + 1, Pdx(v) + 1;
      ParentKept(r, Now(), lo, d, c, v);
      KernelLayout(data, v);
      var t := WalkPgdir(d, v, false);
      var pte := mem[t.value][Ptx(v)];
      var f, got := AddPage(c, v, mem[pte.frame], pte.flags);
      ok := got;
      if got {
        CopyStep(r, before, Now(), lo, d, c, data, v, f.value, next);
        CountStep(s0, before, Now(), c, 0, top, v, Pdx(v), 1, top', next);
      } else {
        CountShort(s0, before, c, 0, top, v, Pdx(v), 1, top', next);
        DropCopy(c, f, r, before);
      }
    }

    /** A copy of the first pages of d, up to sz, in an address space of its own: equal flags and
        contents on pages not used before; the original and all else stay as they are. It fails
        exactly when there are too few free pages for the copy, its tables and the kernel half;
        then everything taken is given back. */
    method CopyUvm(d: nat, sz: nat, data: nat) returns (c: Option<nat>)
      requires Valid() && Is(Now(), d, Dir) && 0x100 < data < 0xE000 && sz <= KERNBASE
      requires forall v: nat :: v < RoundUp(sz) ==> Present(Entry(mem, d, v))
      modifies this
      ensures Valid()
      ensures c.None? ==> SamePages(old(Now()), Now())
      ensures c.Some? ==> Copied(old(Now()), Now(), d, c.value, data, RoundUp(sz)) && Others(old(Now()), Now(), c.value)
      ensures c.Some? <==> |old(free)| >= KERNEL_PAGES + RoundUp(sz) + (RoundUp(sz) + 1023) / 1024
    {
      ghost var was := Now();
      c := SetupKvm(data);
      if c.None? {
        return;
      }
      ghost var s0 := Now();
      var ok := CopyPages(d, c.value, sz, data, was);
      CopyTables(was, s0, c.value, data, RoundUp(sz));
      if !ok {
        return None;
      }
      ExtendsOthers(was, Now(), c.value);
    }

    /** The loop of copyuvm. */
    method CopyPages(d: nat, c: nat, sz: nat, ghost data: nat, ghost r: Ram) returns (ok: bool)
      requires Pages.Valid(r, lo) && Is(r, d, Dir) && 0x100 < data < 0xE000 && sz <= KERNBASE
      requires forall v: nat :: v < RoundUp(sz) ==> Present(Entry(r.mem, d, v))
      requires Valid() && Copied(r, Now(), d, c, data, 0)
      modifies this
      ensures Valid() && c < |old(mem)| && TopTable(0, RoundUp(sz)) <= 1024
      ensures ok ==> Copied(r, Now(), d, c, data, RoundUp(sz))
      ensures !ok ==> SamePages(r, Now())
      ensures ok <==> |old(free)| >= RoundUp(sz) + Missing(old(mem)[c], 0, TopTable(0, RoundUp(sz)))
    {
      ghost var s0, n, top := Now(), RoundUp(sz), 0;
      var v := 0;
      TopMore(0, 0, n);
      while v * PGSIZE < sz
        invariant 0 <= v <= n && Valid() && Copied(r, Now(), d, c, data, v)
        invariant top == TopTable(0, v) && Counted(s0, Now(), c, 0, top, v)
      {
        var next;
        ok, next, top := CopyRound(d, c, v, data, r, s0, top);
        if !ok {
          TopMore(0, next, n);
          MissingMore(s0.mem[c], 0, top, TopTable(0, n));
          return;
        }
        v := next;
      }
      assert v == n;
      ok := true;
    }
  }

  /** A new address space has no user tables, so n pages need one for every 1024 of them. */
  lemma CopyTables(r: Ram, s: Ram, c: nat, data: nat, n: nat)
    requires 0x100 < data < 0xE000 && KernelTables(r, s, c, data, 4) && n <= USER_PAGES
    ensures TopTable(0, n) == (n + 1023) / 1024 <= 512
    ensures Missing(s.mem[c], 0, TopTable(0, n)) == (n + 1023) / 1024 && |r.free| == |s.free| + KERNEL_PAGES
  {
    assert n > 0 ==> (n - 1) / 1024 + 1 == (n + 1023) / 1024;
    MissingAll(s.mem[c], 0, TopTable(0, n));
  }
}
