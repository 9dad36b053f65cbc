/** umalloc.c: the storage allocator of Kernighan and Ritchie, The C Programming
    Language, second edition, section 8.7. Addresses count units of one Header. */
module Heap {

  /** union header: the list pointer and the size in units. */
  datatype Header = Header(ptr: nat, size: nat)

  type Memory = map<nat, Header>

  /** A free block. */
  datatype Node = Node(addr: nat, size: nat)

  // ---- where the blocks lie ----

  /** The free blocks in address order, first the permanent node base of size 0. No two
      touch, except that nodes g and g+1 may. */
  ghost predicate Sorted(base: nat, nodes: seq<Node>, brk: nat, g: nat) {
    && |nodes| > 0 && nodes[0] == Node(base, 0)
    && (forall i :: 0 < i < |nodes| ==> nodes[i].size > 0 && nodes[i].addr + nodes[i].size <= brk)
    && (forall i, j :: 0 <= i < j < |nodes| ==> Before(nodes[i], nodes[j], i == g && j == g + 1))
  }

  predicate Before(n: Node, m: Node, touching: bool) {
    n.addr + n.size < m.addr || (touching && n.addr + n.size == m.addr)
  }

  predicate Apart(n: Node, a: nat, size: nat) {
    n.addr + n.size <= a || a + size <= n.addr
  }

  /** Live blocks lie in the heap and overlap neither each other nor a free block. */
  ghost predicate Disjoint(base: nat, nodes: seq<Node>, live: map<nat, nat>, brk: nat) {
    && (forall a :: a in live ==> live[a] > 0 && base < a && a + live[a] <= brk)
    && (forall a, b :: a in live && b in live && a < b ==> a + live[a] <= b)
    && (forall i, a :: 0 <= i < |nodes| && a in live ==> Apart(nodes[i], a, live[a]))
  }

  ghost predicate Shape(base: nat, nodes: seq<Node>, live: map<nat, nat>, brk: nat) {
    Sorted(base, nodes, brk, |nodes|) && Disjoint(base, nodes, live, brk)
  }

  // ---- what memory says about them ----

  function Next(i: nat, n: nat): nat
    requires i < n
  {
    if i + 1 < n then i + 1 else 0
  }

  /** Every node's header holds its size and points to the next node, the last one to base. */
  ghost predicate Linked(mem: Memory, nodes: seq<Node>) {
    forall i {:trigger LinkedAt(mem, nodes, i)} :: 0 <= i < |nodes| ==> LinkedAt(mem, nodes, i)
  }

  ghost predicate LinkedAt(mem: Memory, nodes: seq<Node>, i: nat)
    requires i < |nodes|
  {
    nodes[i].addr in mem && mem[nodes[i].addr] == Header(nodes[Next(i, |nodes|)].addr, nodes[i].size)
  }

  ghost predicate Sized(mem: Memory, live: map<nat, nat>) {
    forall a :: a in live ==> a in mem && mem[a].size == live[a]
  }

  // ---- how many units are free, how many are live ----

  function FreeUnits(nodes: seq<Node>): nat {
    if nodes == [] then 0 else FreeUnits(nodes[..|nodes| - 1]) + nodes[|nodes| - 1].size
  }

  ghost function LiveUnits(live: map<nat, nat>): nat {
    if live == map[] then 0 else
    var a :| a in live;
    live[a] + LiveUnits(live - {a})
  }

  lemma {:induction false} LiveUnitsSplit(live: map<nat, nat>, a: nat)
    requires a in live
    ensures LiveUnits(live) == live[a] + LiveUnits(live - {a})
    decreases |live|
  {
    var c :| c in live && LiveUnits(live) == live[c] + LiveUnits(live - {c});
    if c != a {
      LiveUnitsSplit(live - {c}, a);
      LiveUnitsSplit(live - {a}, c);
      assert live - {c} - {a} == live - {a} - {c};
    }
  }

  lemma LiveUnitsAdd(live: map<nat, nat>, a: nat, n: nat)
    requires a !in live
    ensures LiveUnits(live[a := n]) == LiveUnits(live) + n
  {
    LiveUnitsSplit(live[a := n], a);
    assert live[a := n] - {a} == live;
  }

  lemma {:induction false} FreeUnitsConcat(x: seq<Node>, y: seq<Node>)
    ensures FreeUnits(x + y) == FreeUnits(x) + FreeUnits(y)
    decreases |y|
  {
    if y == [] {
      assert x + y == x;
    } else {
      FreeUnitsConcat(x, y[..|y| - 1]);
      assert (x + y)[..|x + y| - 1] == x + y[..|y| - 1];
    }
  }

  lemma FreeUnitsMid(x: seq<Node>, n: Node, y: seq<Node>)
    ensures FreeUnits(x + [n] + y) == FreeUnits(x) + n.size + FreeUnits(y)
  {
    FreeUnitsConcat(x + [n], y);
    assert (x + [n])[..|x|] == x;
  }

  // ---- putting a block back ----

  /** bp lies between node t and the node after it. */
  ghost predicate Between(nodes: seq<Node>, t: nat, bp: nat) {
    t < |nodes| && nodes[t].addr < bp && (t + 1 < |nodes| ==> bp < nodes[t + 1].addr)
  }

  /** bp becomes a node of its own. */
  lemma InsertNode(base: nat, nodes: seq<Node>, live: map<nat, nat>, brk: nat, t: nat, bp: nat) returns (nodes': seq<Node>)
    requires Shape(base, nodes, live, brk) && bp in live && Between(nodes, t, bp)
    requires t + 1 < |nodes| ==> bp + live[bp] < nodes[t + 1].addr
    ensures nodes' == nodes[..t + 1] + [Node(bp, live[bp])] + nodes[t + 1..]
    ensures Sorted(base, nodes', brk, t) && Disjoint(base, nodes', live - {bp}, brk)
    ensures FreeUnits(nodes') == FreeUnits(nodes) + live[bp]
  {
    var n := Node(bp, live[bp]);
    nodes' := nodes[..t + 1] + [n] + nodes[t + 1..];
    InsertSorted(base, nodes, brk, t, n, live);
    InsertDisjoint(base, nodes, brk, t, n, live);
    FreeUnitsMid(nodes[..t + 1], n, nodes[t + 1..]);
    FreeUnitsConcat(nodes[..t + 1], nodes[t + 1..]);
    assert nodes[..t + 1] + nodes[t + 1..] == nodes;
  }

  lemma InsertSorted(base: nat, nodes: seq<Node>, brk: nat, t: nat, n: Node, live: map<nat, nat>)
    requires Shape(base, nodes, live, brk) && n.addr in live && n.size == live[n.addr] && Between(nodes, t, n.addr)
    requires t + 1 < |nodes| ==> n.addr + n.size < nodes[t + 1].addr
    ensures Sorted(base, nodes[..t + 1] + [n] + nodes[t + 1..], brk, t)
  {
    var nodes' := nodes[..t + 1] + [n] + nodes[t + 1..];
    assert Apart(nodes[t], n.addr, n.size);
    forall i, j | 0 <= i < j < |nodes'|
      ensures Before(nodes'[i], nodes'[j], i == t && j == t + 1)
    {
      assert nodes'[i] == if i <= t then nodes[i] else if i == t + 1 then n else nodes[i - 1];
      assert nodes'[j] == if j <= t then nodes[j] else if j == t + 1 then n else nodes[j - 1];
    }
  }

  lemma InsertDisjoint(base: nat, nodes: seq<Node>, brk: nat, t: nat, n: Node, live: map<nat, nat>)
    requires Disjoint(base, nodes, live, brk) && n.addr in live && n.size == live[n.addr] && t < |nodes|
    ensures Disjoint(base, nodes[..t + 1] + [n] + nodes[t + 1..], live - {n.addr}, brk)
  {
    var nodes' := nodes[..t + 1] + [n] + nodes[t + 1..];
    forall i, a | 0 <= i < |nodes'| && a in live - {n.addr}
      ensures Apart(nodes'[i], a, live[a])
    {
      assert nodes'[i] == if i <= t then nodes[i] else if i == t + 1 then n else nodes[i - 1];
    }
  }

  /** bp swallows the node after it and takes its place. */
  lemma JoinNext(base: nat, nodes: seq<Node>, live: map<nat, nat>, brk: nat, t: nat, bp: nat) returns (nodes': seq<Node>)
    requires Shape(base, nodes, live, brk) && bp in live && Between(nodes, t, bp)
    requires t + 1 < |nodes| && bp + live[bp] == nodes[t + 1].addr
    ensures nodes' == nodes[t + 1 := Node(bp, live[bp] + nodes[t + 1].size)]
    ensures Sorted(base, nodes', brk, t) && Disjoint(base, nodes', live - {bp}, brk)
    ensures FreeUnits(nodes') == FreeUnits(nodes) + live[bp]
  {
    nodes' := nodes[t + 1 := Node(bp, live[bp] + nodes[t + 1].size)];
    JoinNextSorted(base, nodes, live, brk, t, bp);
    JoinNextDisjoint(base, nodes, live, brk, t, bp);
    ReplaceUnits(nodes, t + 1, Node(bp, live[bp] + nodes[t + 1].size));
  }

  lemma JoinNextSorted(base: nat, nodes: seq<Node>, live: map<nat, nat>, brk: nat, t: nat, bp: nat)
    requires Shape(base, nodes, live, brk) && bp in live && Between(nodes, t, bp)
    requires t + 1 < |nodes| && bp + live[bp] == nodes[t + 1].addr
    ensures Sorted(base, nodes[t + 1 := Node(bp, live[bp] + nodes[t + 1].size)], brk, t)
  {
    assert Apart(nodes[t], bp, live[bp]);
  }

  lemma JoinNextDisjoint(base: nat, nodes: seq<Node>, live: map<nat, nat>, brk: nat, t: nat, bp: nat)
    requires Shape(base, nodes, live, brk) && bp in live
    requires t + 1 < |nodes| && bp + live[bp] == nodes[t + 1].addr
    ensures Disjoint(base, nodes[t + 1 := Node(bp, live[bp] + nodes[t + 1].size)], live - {bp}, brk)
  {
    var nodes' := nodes[t + 1 := Node(bp, live[bp] + nodes[t + 1].size)];
    forall i, a | 0 <= i < |nodes'| && a in live - {bp}
      ensures Apart(nodes'[i], a, live[a])
    {
      assert Apart(nodes[i], a, live[a]);
    }
  }

  lemma ReplaceUnits(nodes: seq<Node>, k: nat, n: Node)
    requires k < |nodes|
    ensures FreeUnits(nodes[k := n]) == FreeUnits(nodes) - nodes[k].size + n.size
  {
    FreeUnitsMid(nodes[..k], n, nodes[k + 1..]);
    FreeUnitsMid(nodes[..k], nodes[k], nodes[k + 1..]);
    assert nodes == nodes[..k] + [nodes[k]] + nodes[k + 1..];
    assert nodes[k := n] == nodes[..k] + [n] + nodes[k + 1..];
  }

  /** nodes without node k. */
  function Without(nodes: seq<Node>, k: nat): seq<Node>
    requires k < |nodes|
  {
    nodes[..k] + nodes[k + 1..]
  }

  lemma WithoutUnits(nodes: seq<Node>, k: nat)
    requires k < |nodes|
    ensures FreeUnits(Without(nodes, k)) == FreeUnits(nodes) - nodes[k].size
  {
    assert nodes == nodes[..k] + [nodes[k]] + nodes[k + 1..];
    LeaveOutUnits(nodes[..k], nodes[k], nodes[k + 1..]);
  }

  lemma LeaveOutUnits(a: seq<Node>, n: Node, b: seq<Node>)
    ensures FreeUnits(a + [n] + b) == FreeUnits(a + b) + n.size
  {
    FreeUnitsConcat(a, b);
    FreeUnitsMid(a, n, b);
  }

  /** Node t swallows the node after it, which it touches. */
  lemma JoinPrev(base: nat, nodes: seq<Node>, live: map<nat, nat>, brk: nat, t: nat) returns (nodes': seq<Node>)
    requires Sorted(base, nodes, brk, t) && Disjoint(base, nodes, live, brk)
    requires t + 1 < |nodes| && nodes[t].addr + nodes[t].size == nodes[t + 1].addr && t > 0
    ensures nodes' == Without(nodes[t := Node(nodes[t].addr, nodes[t].size + nodes[t + 1].size)], t + 1)
    ensures Shape(base, nodes', live, brk)
    ensures FreeUnits(nodes') == FreeUnits(nodes)
  {
    var n := Node(nodes[t].addr, nodes[t].size + nodes[t + 1].size);
    nodes' := Without(nodes[t := n], t + 1);
    JoinPrevSorted(base, nodes, brk, t);
    JoinPrevDisjoint(base, nodes, live, brk, t);
    ReplaceUnits(nodes, t, n);
    WithoutUnits(nodes[t := n], t + 1);
  }

  lemma JoinPrevSorted(base: nat, nodes: seq<Node>, brk: nat, t: nat)
    requires Sorted(base, nodes, brk, t)
    requires t + 1 < |nodes| && nodes[t].addr + nodes[t].size == nodes[t + 1].addr && t > 0
    ensures var nodes' := Without(nodes[t := Node(nodes[t].addr, nodes[t].size + nodes[t + 1].size)], t + 1);
            Sorted(base, nodes', brk, |nodes'|)
  {
    var n := Node(nodes[t].addr, nodes[t].size + nodes[t + 1].size);
    var nodes' := Without(nodes[t := n], t + 1);
    forall i, j | 0 <= i < j < |nodes'|
      ensures Before(nodes'[i], nodes'[j], false)
    {
      assert nodes'[i] == if i < t then nodes[i] else if i == t then n else nodes[i + 1];
      assert nodes'[j] == if j < t then nodes[j] else if j == t then n else nodes[j + 1];
      assert i == t ==> Before(nodes[t + 1], nodes[j + 1], false);
    }
  }

  lemma JoinPrevDisjoint(base: nat, nodes: seq<Node>, live: map<nat, nat>, brk: nat, t: nat)
    requires Disjoint(base, nodes, live, brk)
    requires t + 1 < |nodes| && nodes[t].addr + nodes[t].size == nodes[t + 1].addr
    ensures Disjoint(base, Without(nodes[t := Node(nodes[t].addr, nodes[t].size + nodes[t + 1].size)], t + 1), live, brk)
  {
    var n := Node(nodes[t].addr, nodes[t].size + nodes[t + 1].size);
    var nodes' := Without(nodes[t := n], t + 1);
    forall i, a | 0 <= i < |nodes'| && a in live
      ensures Apart(nodes'[i], a, live[a])
    {
      assert Apart(nodes[t], a, live[a]) && Apart(nodes[t + 1], a, live[a]);
      assert nodes'[i] == if i < t then nodes[i] else if i == t then n else nodes[i + 1];
    }
  }

  lemma Untouched(base: nat, nodes: seq<Node>, live: map<nat, nat>, brk: nat, t: nat)
    requires Sorted(base, nodes, brk, t) && Disjoint(base, nodes, live, brk)
    requires t + 1 < |nodes| ==> nodes[t].addr + nodes[t].size != nodes[t + 1].addr
    ensures Shape(base, nodes, live, brk)
  {
  }

  // ---- the links after each change ----

  ghost predicate Increasing(nodes: seq<Node>) {
    forall i, j :: 0 <= i < j < |nodes| ==> nodes[i].addr < nodes[j].addr
  }

  lemma SortedIncreasing(base: nat, nodes: seq<Node>, brk: nat)
    requires Sorted(base, nodes, brk, |nodes|)
    ensures Increasing(nodes)
  {
    forall i, j | 0 <= i < j < |nodes|
      ensures nodes[i].addr < nodes[j].addr
    {
      assert Before(nodes[i], nodes[j], false);
    }
  }

  /** There is exactly one place for an address above base. */
  lemma {:induction false} Place(nodes: seq<Node>, bp: nat) returns (t: nat)
    requires |nodes| > 0 && Increasing(nodes) && nodes[0].addr < bp
    requires forall i :: 0 <= i < |nodes| ==> nodes[i].addr != bp
    ensures Between(nodes, t, bp)
    ensures forall i :: 0 <= i < |nodes| ==> (nodes[i].addr < bp <==> i <= t)
    decreases |nodes|
  {
    if nodes[|nodes| - 1].addr < bp {
      t := |nodes| - 1;
    } else {
      t := Place(nodes[..|nodes| - 1], bp);
    }
  }

  lemma LinkInserted(mem: Memory, nodes: seq<Node>, t: nat, n: Node) returns (mem': Memory)
    requires Linked(mem, nodes) && Increasing(nodes) && Between(nodes, t, n.addr)
    ensures LinkedAt(mem, nodes, t)
    ensures mem' == mem[n.addr := Header(mem[nodes[t].addr].ptr, n.size)][nodes[t].addr := Header(n.addr, nodes[t].size)]
    ensures Linked(mem', nodes[..t + 1] + [n] + nodes[t + 1..])
  {
    assert LinkedAt(mem, nodes, t) && (t + 1 < |nodes| ==> LinkedAt(mem, nodes, t + 1));
    mem' := mem[n.addr := Header(mem[nodes[t].addr].ptr, n.size)][nodes[t].addr := Header(n.addr, nodes[t].size)];
    var nodes' := nodes[..t + 1] + [n] + nodes[t + 1..];
    forall i | 0 <= i < |nodes'|
      ensures LinkedAt(mem', nodes', i)
    {
      assert LinkedAt(mem, nodes, t);
      assert i <= t ==> LinkedAt(mem, nodes, i);
      assert i > t + 1 ==> LinkedAt(mem, nodes, i - 1);
      assert nodes'[i] == if i <= t then nodes[i] else if i == t + 1 then n else nodes[i - 1];
      var j := Next(i, |nodes'|);
      assert nodes'[j] == if j <= t then nodes[j] else if j == t + 1 then n else nodes[j - 1];
    }
  }

  lemma LinkReplaced(mem: Memory, nodes: seq<Node>, t: nat, n: Node) returns (mem': Memory)
    requires Linked(mem, nodes) && Increasing(nodes) && Between(nodes, t, n.addr) && t + 1 < |nodes|
    ensures LinkedAt(mem, nodes, t + 1)
    ensures mem' == mem[n.addr := Header(mem[nodes[t + 1].addr].ptr, n.size)][nodes[t].addr := Header(n.addr, nodes[t].size)]
    ensures Linked(mem', nodes[t + 1 := n])
  {
    assert LinkedAt(mem, nodes, t) && (t + 1 < |nodes| ==> LinkedAt(mem, nodes, t + 1));
    mem' := mem[n.addr := Header(mem[nodes[t + 1].addr].ptr, n.size)][nodes[t].addr := Header(n.addr, nodes[t].size)];
    var nodes' := nodes[t + 1 := n];
    forall i | 0 <= i < |nodes'|
      ensures LinkedAt(mem', nodes', i)
    {
      assert LinkedAt(mem, nodes, i);
    }
  }

  /** Node t, now n, takes over the pointer of the node after it, which leaves the list. */
  lemma LinkRemoved(mem: Memory, nodes: seq<Node>, t: nat, n: Node) returns (mem': Memory)
    requires Linked(mem, nodes) && Increasing(nodes) && t + 1 < |nodes| && n.addr == nodes[t].addr
    ensures LinkedAt(mem, nodes, t + 1)
    ensures mem' == mem[n.addr := Header(mem[nodes[t + 1].addr].ptr, n.size)]
    ensures Linked(mem', Without(nodes[t := n], t + 1))
  {
    assert LinkedAt(mem, nodes, t) && (t + 1 < |nodes| ==> LinkedAt(mem, nodes, t + 1));
    mem' := mem[n.addr := Header(mem[nodes[t + 1].addr].ptr, n.size)];
    var nodes' := Without(nodes[t := n], t + 1);
    forall i | 0 <= i < |nodes'|
      ensures LinkedAt(mem', nodes', i)
    {
      assert i <= t ==> LinkedAt(mem, nodes, i);
      assert i >= t ==> LinkedAt(mem, nodes, i + 1);
      assert nodes'[i] == if i < t then nodes[i] else if i == t then n else nodes[i + 1];
      var j := Next(i, |nodes'|);
      assert nodes'[j] == if j < t then nodes[j] else if j == t then n else nodes[j + 1];
    }
  }

  lemma StillSized(mem: Memory, mem': Memory, base: nat, nodes: seq<Node>, live: map<nat, nat>, brk: nat, bp: nat, t: nat)
    requires Sized(mem, live) && Shape(base, nodes, live, brk) && t < |nodes|
    requires forall a :: a in mem && a != bp && a != nodes[t].addr ==> a in mem' && mem'[a] == mem[a]
    ensures Sized(mem', live - {bp})
    ensures nodes[t].addr !in live
  {
    forall a | a in live
      ensures a != nodes[t].addr
    {
      assert Apart(nodes[t], a, live[a]);
    }
  }

  // ---- malloc and free ----

  const HEADER: nat := 8   // sizeof(Header)

  /** (Header*)ap - 1 */
  function HeaderOf(ap: nat): nat
    requires ap > 0
  {
    ap - 1
  }

  /** nunits in malloc, computed in 32-bit unsigned arithmetic. */
  function Units(nbytes: nat): nat
    requires nbytes < 0x1_0000_0000
  {
    (nbytes + HEADER - 1) % 0x1_0000_0000 / HEADER + 1
  }

  /** The block is big enough exactly for requests that do not wrap. */
  lemma UnitsSuffice(nbytes: nat)
    requires nbytes < 0x1_0000_0000
    ensures (Units(nbytes) - 1) * HEADER >= nbytes <==> nbytes <= 0xFFFF_FFF8
    ensures Units(nbytes) >= 1
  {
  }

  /** What morecore passes to sbrk for a request, as the int it is there. */
  function SbrkArg(nbytes: nat): int
    requires nbytes < 0x1_0000_0000
  {
    var bytes := CoreUnits(Units(nbytes)) * HEADER % 0x1_0000_0000;
    if bytes < 0x8000_0000 then bytes else bytes - 0x1_0000_0000
  }

  /** sbrk is asked to grow exactly for requests below 2 GB and for those that wrap to a small
      one; for all others in between it would be asked to shrink, or for nothing. */
  lemma SbrkGrows(nbytes: nat)
    requires nbytes < 0x1_0000_0000
    ensures SbrkArg(nbytes) > 0 <==> nbytes <= 0x7FFF_FFF0 || nbytes > 0xFFFF_FFF8
    ensures SbrkArg(nbytes) > 0 ==> SbrkArg(nbytes) == CoreUnits(Units(nbytes)) * HEADER
  {
  }

  /** Node j leaves the list and becomes a live block. */
  lemma TakeWhole(base: nat, nodes: seq<Node>, live: map<nat, nat>, brk: nat, j: nat)
    requires Shape(base, nodes, live, brk) && 0 < j < |nodes|
    ensures nodes[j].addr !in live
    ensures Shape(base, Without(nodes, j), live[nodes[j].addr := nodes[j].size], brk)
    ensures FreeUnits(Without(nodes, j)) + LiveUnits(live[nodes[j].addr := nodes[j].size]) == FreeUnits(nodes) + LiveUnits(live)
  {
    assert nodes[j].addr !in live by {
      assert forall a :: a in live ==> Apart(nodes[j], a, live[a]);
    }
    WithoutSorted(base, nodes, brk, j);
    WithoutDisjoint(base, nodes, live, brk, j);
    WithoutUnits(nodes, j);
    LiveUnitsAdd(live, nodes[j].addr, nodes[j].size);
  }

  lemma WithoutDisjoint(base: nat, nodes: seq<Node>, live: map<nat, nat>, brk: nat, j: nat)
    requires Shape(base, nodes, live, brk) && 0 < j < |nodes|
    ensures Disjoint(base, Without(nodes, j), live[nodes[j].addr := nodes[j].size], brk)
  {
    var n, nodes' := nodes[j], Without(nodes, j);
    var live' := live[n.addr := n.size];
    assert forall a :: a in live ==> Apart(n, a, live[a]);
    assert Before(nodes[0], n, false);
    forall i, a | 0 <= i < |nodes'| && a in live'
      ensures Apart(nodes'[i], a, live'[a])
    {
      assert nodes'[i] == if i < j then nodes[i] else nodes[i + 1];
      assert if i < j then Before(nodes[i], n, false) else Before(n, nodes[i + 1], false);
    }
  }

  lemma WithoutSorted(base: nat, nodes: seq<Node>, brk: nat, j: nat)
    requires Sorted(base, nodes, brk, |nodes|) && 0 < j < |nodes|
    ensures Sorted(base, Without(nodes, j), brk, |nodes| - 1)
  {
    var nodes' := Without(nodes, j);
    forall i, k | 0 <= i < k < |nodes'|
      ensures Before(nodes'[i], nodes'[k], false)
    {
      assert nodes'[i] == if i < j then nodes[i] else nodes[i + 1];
      assert nodes'[k] == if k < j then nodes[k] else nodes[k + 1];
    }
  }

  /** The upper n units of node j become a live block. */
  lemma TakePart(base: nat, nodes: seq<Node>, live: map<nat, nat>, brk: nat, j: nat, n: nat) returns (bp: nat, nodes': seq<Node>)
    requires Shape(base, nodes, live, brk) && 0 < j < |nodes| && 0 < n < nodes[j].size
    ensures bp == nodes[j].addr + nodes[j].size - n && nodes' == nodes[j := Node(nodes[j].addr, nodes[j].size - n)]
    ensures bp !in live && forall i :: 0 <= i < |nodes| ==> nodes[i].addr != bp
    ensures Shape(base, nodes', live[bp := n], brk)
    ensures FreeUnits(nodes') + LiveUnits(live[bp := n]) == FreeUnits(nodes) + LiveUnits(live)
  {
    var m := Node(nodes[j].addr, nodes[j].size - n);
    bp, nodes' := nodes[j].addr + nodes[j].size - n, nodes[j := m];
    InsideNode(base, nodes, live, brk, j, bp);
    LiveUnitsAdd(live, bp, n);
    ReplaceUnits(nodes, j, m);
    TakePartSorted(base, nodes, brk, j, n);
    TakePartDisjoint(base, nodes, live, brk, j, n, bp);
  }

  /** An address strictly inside a free block is neither a node nor a live block. */
  lemma InsideNode(base: nat, nodes: seq<Node>, live: map<nat, nat>, brk: nat, j: nat, bp: nat)
    requires Shape(base, nodes, live, brk) && 0 < j < |nodes| && nodes[j].addr < bp < nodes[j].addr + nodes[j].size
    ensures bp !in live && forall i :: 0 <= i < |nodes| ==> nodes[i].addr != bp
  {
    assert forall a :: a in live ==> Apart(nodes[j], a, live[a]);
    forall i | 0 <= i < |nodes|
      ensures nodes[i].addr != bp
    {
      assert i < j ==> Before(nodes[i], nodes[j], false);
      assert j < i ==> Before(nodes[j], nodes[i], false);
    }
  }

  lemma TakePartSorted(base: nat, nodes: seq<Node>, brk: nat, j: nat, n: nat)
    requires Sorted(base, nodes, brk, |nodes|) && 0 < j < |nodes| && 0 < n < nodes[j].size
    ensures Sorted(base, nodes[j := Node(nodes[j].addr, nodes[j].size - n)], brk, |nodes|)
  {
    var nodes' := nodes[j := Node(nodes[j].addr, nodes[j].size - n)];
    forall i, k | 0 <= i < k < |nodes'|
      ensures Before(nodes'[i], nodes'[k], false)
    {
      assert Before(nodes[i], nodes[k], false);
    }
  }

  lemma TakePartDisjoint(base: nat, nodes: seq<Node>, live: map<nat, nat>, brk: nat, j: nat, n: nat, bp: nat)
    requires Shape(base, nodes, live, brk) && 0 < j < |nodes| && 0 < n < nodes[j].size && bp == nodes[j].addr + nodes[j].size - n
    ensures Disjoint(base, nodes[j := Node(nodes[j].addr, nodes[j].size - n)], live[bp := n], brk)
  {
    var nodes' := nodes[j := Node(nodes[j].addr, nodes[j].size - n)];
    var live' := live[bp := n];
    assert forall a :: a in live ==> Apart(nodes[j], a, live[a]);
    assert Before(nodes[0], nodes[j], false);
    forall i, a | 0 <= i < |nodes'| && a in live'
      ensures Apart(nodes'[i], a, live'[a])
    {
      assert i < j ==> Before(nodes[i], nodes[j], false);
      assert j < i ==> Before(nodes[j], nodes[i], false);
    }
  }

  class Allocator {
    const base: nat        // address of the static header
    var mem: Memory
    var freep: nat         // 0 until the first malloc
    var brk: nat           // where the next sbrk will start
    ghost var nodes: seq<Node>
    ghost var live: map<nat, nat>   // header address and size of every block handed out
    ghost var total: nat            // units obtained from sbrk

    ghost predicate Ready()
      reads this
    {
      && base > 0
      && Shape(base, nodes, live, brk) && Linked(mem, nodes) && Sized(mem, live)
      && (exists k :: 0 <= k < |nodes| && nodes[k].addr == freep)
      && FreeUnits(nodes) + LiveUnits(live) == total
    }

    /** Before the first malloc nothing has been handed out. */
    ghost predicate Valid()
      reads this
    {
      if freep == 0 then 0 < base < brk && live == map[] && total == 0 else base < brk && Ready()
    }

    constructor (base: nat, brk: nat)
      requires 0 < base < brk
      ensures Valid() && live == map[] && freep == 0
    {
      this.base, this.brk := base, brk;
      mem, freep := map[], 0;
      nodes, live, total := [], map[], 0;
    }

    /** free: exactly the block ap leaves the live blocks. freep is the node at index at; the
        freed units are in that node or in the one after it. */
    method Free(ap: nat) returns (ghost at: nat)
      requires freep != 0 && Valid() && ap > 0 && HeaderOf(ap) in live
      modifies this`mem, this`freep, this`nodes, this`live
      ensures freep != 0 && Valid()
      ensures live == old(live) - {HeaderOf(ap)}
      ensures at < |nodes| && nodes[at].addr == freep && Grown(nodes, at, old(live)[HeaderOf(ap)])
    {
      var bp := HeaderOf(ap);
      var p, t := FindPlace(bp);
      ghost var mem', nodes', live' := FreedUnits(mem, base, nodes, live, brk, t, bp);
      Relink(p, bp);
      Settle(nodes', live', p, t);
      at := t;
    }

    /** The next scan will start at p; the list and the live blocks are as they are now. */
    method Settle(ghost nodes': seq<Node>, ghost live': map<nat, nat>, p: nat, ghost t: nat)
      requires 0 < base < brk && t < |nodes'| && nodes'[t].addr == p
      requires Shape(base, nodes', live', brk) && Linked(mem, nodes') && Sized(mem, live')
      requires FreeUnits(nodes') + LiveUnits(live') == total
      modifies this`freep, this`nodes, this`live
      ensures nodes == nodes' && live == live' && freep == p != 0 && Valid()
    {
      assert Before(nodes'[0], nodes'[t], false) || t == 0;
      nodes, live, freep := nodes', live', p;
    }

    /** The assignments of free, once p has been found. */
    method Relink(p: nat, bp: nat)
      requires p in mem && bp in mem && p != bp && mem[p].ptr in mem
      modifies this`mem
      ensures mem == Relinked(old(mem), p, bp)
    {
      if bp + mem[bp].size == mem[p].ptr {
        mem := mem[bp := Header(mem[mem[p].ptr].ptr, mem[bp].size + mem[mem[p].ptr].size)];
      } else {
        mem := mem[bp := Header(mem[p].ptr, mem[bp].size)];
      }
      if p + mem[p].size == bp {
        mem := mem[p := Header(mem[bp].ptr, mem[p].size + mem[bp].size)];
      } else {
        mem := mem[p := Header(bp, mem[p].size)];
      }
    }

    /** malloc. 0 is the null pointer; grant says whether the system lets sbrk extend the memory,
        which it can only do when its argument is positive; asked tells how often it was called. */
    method Malloc(nbytes: nat, grant: bool) returns (r: nat, ghost asked: nat)
      requires Valid() && nbytes < 0x1_0000_0000 && (grant ==> SbrkArg(nbytes) > 0)
      modifies this
      ensures freep != 0 && Valid()
      ensures r == 0 <==> !grant && asked == 1
      ensures r == 0 ==> live == old(live) && total == old(total)
      ensures r != 0 ==> HeaderOf(r) !in old(live) && live == old(live)[HeaderOf(r) := Units(nbytes)]
      ensures asked <= 1 && (asked == 0 ==> total == old(total) && brk == old(brk))
      ensures asked == 1 && old(freep) != 0 ==> AllSmall(old(nodes), Units(nbytes))
    {
      UnitsSuffice(nbytes);
      var nunits := Units(nbytes);
      if freep == 0 {
        FirstCall();
      }
      asked := 0;
      ghost var s := FreepIndex(base, nodes, live, brk, freep);
      var found, prevp, p, k := Scan(nunits, s);
      if found {
        r := Take(prevp, p, nunits, k);
      } else {
        asked := 1;
        r := 0;
        if grant {
          r := GrowAndTake(nunits);
        }
      }
    }

    /** morecore, then the scan goes on from the new freep and cannot fail. */
    method GrowAndTake(nunits: nat) returns (r: nat)
      requires freep != 0 && Valid() && nunits > 0
      modifies this
      ensures freep != 0 && Valid() && r != 0
      ensures HeaderOf(r) !in old(live) && live == old(live)[HeaderOf(r) := nunits]
    {
      MoreCore(nunits);
      ghost var s := FreepIndex(base, nodes, live, brk, freep);
      var found, prevp, p, k := Scan(nunits, s);
      r := Take(prevp, p, nunits, k);
    }

    /** The empty list: the base header points to itself. */
    method FirstCall()
      requires freep == 0 && Valid()
      modifies this`mem, this`freep, this`nodes
      ensures freep != 0 && Valid() && nodes == [Node(base, 0)]
    {
      mem := mem[base := Header(base, 0)];
      freep := base;
      nodes := [Node(base, 0)];
      assert LinkedAt(mem, nodes, 0);
      assert nodes[..0] == [];
    }

    /** morecore when sbrk succeeds: at least 4096 units at the break, handed to free. */
    method MoreCore(nu: nat)
      requires freep != 0 && Valid() && nu > 0
      modifies this
      ensures freep != 0 && Valid() && live == old(live)
      ensures total == old(total) + CoreUnits(nu) && brk == old(brk) + CoreUnits(nu)
      ensures !AllSmall(nodes, nu)
    {
      var n := CoreUnits(nu);
      var ap := Extend(n);
      ghost var at := Free(ap);
      GrownIsBig(nodes, at, n, nu);
    }

    /** The new memory as one block: its header is written where the break was. */
    method Extend(n: nat) returns (ap: nat)
      requires freep != 0 && Valid() && n > 0
      modifies this`mem, this`live, this`brk, this`total
      ensures freep != 0 && Valid() && ap > 0
      ensures HeaderOf(ap) in live && live[HeaderOf(ap)] == n && live - {HeaderOf(ap)} == old(live)
      ensures total == old(total) + n && brk == old(brk) + n
    {
      var hp := brk;
      ghost var mem', live', end := NewCore(mem, base, nodes, live, brk, n);
      mem := mem[hp := Header(if hp in mem then mem[hp].ptr else 0, n)];
      live, brk, total := live', brk + n, total + n;
      ap := hp + 1;
      assert mem == mem' && brk == end;
    }

    /** The body of malloc's loop when p is big enough. */
    method Take(prevp: nat, p: nat, nunits: nat, ghost k: nat) returns (r: nat)
      requires freep != 0 && Valid() && nunits > 0 && k + 1 < |nodes|
      requires prevp == nodes[k].addr && p == nodes[k + 1].addr && nodes[k + 1].size >= nunits
      modifies this`mem, this`freep, this`nodes, this`live
      ensures freep != 0 && Valid() && r != 0
      ensures HeaderOf(r) !in old(live) && live == old(live)[HeaderOf(r) := nunits]
    {
      assert LinkedAt(mem, nodes, k) && LinkedAt(mem, nodes, k + 1);
      SortedIncreasing(base, nodes, brk);
      var h := p;
      if mem[p].size == nunits {
        Unlink(prevp, p, k);
      } else {
        h := Split(p, nunits, k + 1);
      }
      r := h + 1;
      assert HeaderOf(r) == h;
      freep := prevp;
    }

    /** A node of the right size leaves the list. */
    method Unlink(prevp: nat, p: nat, ghost k: nat)
      requires Ready() && k + 1 < |nodes| && prevp == nodes[k].addr && p == nodes[k + 1].addr
      modifies this`mem, this`nodes, this`live
      ensures Shape(base, nodes, live, brk) && Linked(mem, nodes) && Sized(mem, live)
      ensures FreeUnits(nodes) + LiveUnits(live) == total
      ensures k < |nodes| && nodes[k].addr == prevp
      ensures p !in old(live) && live == old(live)[p := old(nodes)[k + 1].size]
    {
      ghost var mem', nodes', live' := UnlinkNode(mem, base, nodes, live, brk, k);
      mem := mem[prevp := Header(mem[p].ptr, mem[prevp].size)];
      nodes, live := nodes', live';
    }

    /** The tail of a larger node becomes the block. */
    method Split(p: nat, nunits: nat, ghost j: nat) returns (h: nat)
      requires Ready() && 0 < j < |nodes| && p == nodes[j].addr && 0 < nunits < nodes[j].size
      modifies this`mem, this`nodes, this`live
      ensures Shape(base, nodes, live, brk) && Linked(mem, nodes) && Sized(mem, live)
      ensures FreeUnits(nodes) + LiveUnits(live) == total
      ensures j <= |nodes| && nodes[j - 1] == old(nodes)[j - 1]
      ensures h !in old(live) && live == old(live)[h := nunits]
    {
      ghost var bp, mem', nodes', live' := SplitNode(mem, base, nodes, live, brk, j, nunits, p);
      mem := mem[p := Header(mem[p].ptr, mem[p].size - nunits)];
      h := p + mem[p].size;
      mem := mem[h := Header(if h in mem then mem[h].ptr else 0, nunits)];
      assert mem == mem';
      nodes, live := nodes', live';
    }

    /** malloc's scan, once round from freep: the first node big enough, with its predecessor k. */
    method Scan(nunits: nat, ghost s: nat) returns (found: bool, prevp: nat, p: nat, ghost k: nat)
      requires s < |nodes| && nodes[s].addr == freep && Linked(mem, nodes) && Increasing(nodes) && nodes[0].size == 0 < nunits
      ensures found <==> !AllSmall(nodes, nunits)
      ensures found ==> k + 1 < |nodes| && prevp == nodes[k].addr && p == nodes[k + 1].addr && nodes[k + 1].size >= nunits
    {
      k := s;
      assert LinkedAt(mem, nodes, s) && LinkedAt(mem, nodes, Next(s, |nodes|));
      prevp := freep;
      p := mem[prevp].ptr;
      ghost var seen := 0;
      while true
        invariant 0 <= seen < |nodes| && 0 <= k < |nodes|
        invariant k == if s + seen < |nodes| then s + seen else s + seen - |nodes|
        invariant prevp == nodes[k].addr && p == nodes[Next(k, |nodes|)].addr
        invariant LinkedAt(mem, nodes, k) && LinkedAt(mem, nodes, Next(k, |nodes|))
        invariant forall i :: 0 <= i < |nodes| && Passed(i, s, seen, |nodes|) ==> nodes[i].size < nunits
        decreases |nodes| - seen
      {
        if mem[p].size >= nunits {
          return true, prevp, p, k;
        }
        if p == freep {
          return false, prevp, p, k;
        }
        prevp := p;
        p := mem[p].ptr;
        k, seen := Next(k, |nodes|), seen + 1;
        assert LinkedAt(mem, nodes, Next(k, |nodes|));
      }
    }

    /** The loop of free: the node below bp, found by going round from freep. */
    method FindPlace(bp: nat) returns (p: nat, ghost t: nat)
      requires Ready() && bp in live
      ensures Between(nodes, t, bp) && p == nodes[t].addr
    {
      SortedIncreasing(base, nodes, brk);
      NotANode(base, nodes, live, brk, bp);
      t := Place(nodes, bp);
      p := freep;
      ghost var k :| 0 <= k < |nodes| && nodes[k].addr == freep;
      assert LinkedAt(mem, nodes, k);
      while !(bp > p && bp < mem[p].ptr)
        invariant 0 <= k < |nodes| && p == nodes[k].addr && LinkedAt(mem, nodes, k)
        decreases if k <= t then t - k else |nodes| - k + t
      {
        if p >= mem[p].ptr && (bp > p || bp < mem[p].ptr) {
          break;
        }
        p := mem[p].ptr;
        k := Next(k, |nodes|);
        assert LinkedAt(mem, nodes, k);
      }
    }
  }

  /** bp's header after the first half of free. */
  function Headed(mem: Memory, bp: nat, q: nat): Header
    requires bp in mem && q in mem
  {
    if bp + mem[bp].size == q then Header(mem[q].ptr, mem[bp].size + mem[q].size) else Header(q, mem[bp].size)
  }

  /** The headers after free has put bp behind p. */
  function Relinked(mem: Memory, p: nat, bp: nat): Memory
    requires p in mem && bp in mem && mem[p].ptr in mem
  {
    var h := Headed(mem, bp, mem[p].ptr);
    mem[bp := h][p := if p + mem[p].size == bp then Header(h.ptr, mem[p].size + h.size) else Header(bp, mem[p].size)]
  }

  /** The block of s units that was freed is part of node at or of the node after it. */
  ghost predicate Grown(nodes: seq<Node>, at: nat, s: nat) {
    at < |nodes| && (nodes[at].size >= s || (at + 1 < |nodes| && nodes[at + 1].size >= s))
  }

  lemma FreedUnits(mem: Memory, base: nat, nodes: seq<Node>, live: map<nat, nat>, brk: nat, t: nat, bp: nat)
    returns (mem': Memory, nodes': seq<Node>, live': map<nat, nat>)
    requires Shape(base, nodes, live, brk) && Linked(mem, nodes) && Sized(mem, live) && bp in live && Between(nodes, t, bp)
    ensures nodes[t].addr in mem && bp in mem && mem[nodes[t].addr].ptr in mem && nodes[t].addr != bp
    ensures mem' == Relinked(mem, nodes[t].addr, bp) && live' == live - {bp}
    ensures t < |nodes'| && nodes'[t].addr == nodes[t].addr && Grown(nodes', t, live[bp])
    ensures Shape(base, nodes', live', brk) && Linked(mem', nodes') && Sized(mem', live')
    ensures FreeUnits(nodes') + LiveUnits(live') == FreeUnits(nodes) + LiveUnits(live)
  {
    mem', nodes' := Freed(mem, base, nodes, live, brk, t, bp);
    LiveUnitsSplit(live, bp);
    live' := live - {bp};
    NotANode(base, nodes, live, brk, bp);
  }

  /** The list after free: bp joined with whichever neighbours it touches. */
  lemma Freed(mem: Memory, base: nat, nodes: seq<Node>, live: map<nat, nat>, brk: nat, t: nat, bp: nat)
    returns (mem': Memory, nodes': seq<Node>)
    requires Shape(base, nodes, live, brk) && Linked(mem, nodes) && Sized(mem, live) && bp in live && Between(nodes, t, bp)
    ensures nodes[t].addr in mem && bp in mem && mem[nodes[t].addr].ptr in mem
    ensures mem' == Relinked(mem, nodes[t].addr, bp)
    ensures t < |nodes'| && nodes'[t].addr == nodes[t].addr && Grown(nodes', t, live[bp])
    ensures Shape(base, nodes', live - {bp}, brk) && Linked(mem', nodes') && Sized(mem', live - {bp})
    ensures FreeUnits(nodes') == FreeUnits(nodes) + live[bp]
  {
    var p := nodes[t].addr;
    var mem1, nodes1 := PutBack(mem, base, nodes, live, brk, t, bp);
    if p + nodes[t].size == bp {
      mem', nodes' := JoinBelow(mem1, base, nodes1, live - {bp}, brk, t);
    } else {
      nodes', mem' := nodes1, mem1;
      Untouched(base, nodes1, live - {bp}, brk, t);
    }
  }

  /** Node t and the next one, which touch, become one node. */
  lemma JoinBelow(mem: Memory, base: nat, nodes: seq<Node>, live: map<nat, nat>, brk: nat, t: nat)
    returns (mem': Memory, nodes': seq<Node>)
    requires Linked(mem, nodes) && Increasing(nodes) && Sized(mem, live) && Sorted(base, nodes, brk, t) && Disjoint(base, nodes, live, brk)
    requires t + 1 < |nodes| && nodes[t].addr + nodes[t].size == nodes[t + 1].addr && t > 0 && nodes[t].addr !in live
    ensures LinkedAt(mem, nodes, t + 1)
    ensures var h := mem[nodes[t + 1].addr]; mem' == mem[nodes[t].addr := Header(h.ptr, nodes[t].size + h.size)]
    ensures t < |nodes'| && nodes'[t] == Node(nodes[t].addr, nodes[t].size + nodes[t + 1].size)
    ensures Shape(base, nodes', live, brk) && Linked(mem', nodes') && Sized(mem', live)
    ensures FreeUnits(nodes') == FreeUnits(nodes)
  {
    var n := Node(nodes[t].addr, nodes[t].size + nodes[t + 1].size);
    assert LinkedAt(mem, nodes, t + 1);
    nodes' := JoinPrev(base, nodes, live, brk, t);
    mem' := LinkRemoved(mem, nodes, t, n);
    assert nodes'[t] == n;
  }

  /** Once node t points to bp, bp is on the list, joined with its upper neighbour if they touch. */
  lemma PutBack(mem: Memory, base: nat, nodes: seq<Node>, live: map<nat, nat>, brk: nat, t: nat, bp: nat)
    returns (mem': Memory, nodes': seq<Node>)
    requires Shape(base, nodes, live, brk) && Linked(mem, nodes) && Sized(mem, live) && bp in live && Between(nodes, t, bp)
    ensures LinkedAt(mem, nodes, t) && mem[nodes[t].addr].ptr in mem && nodes[t].addr !in live
    ensures mem' == mem[bp := Headed(mem, bp, mem[nodes[t].addr].ptr)][nodes[t].addr := Header(bp, nodes[t].size)]
    ensures t + 1 < |nodes'| && nodes'[t] == nodes[t] && nodes'[t + 1].addr == bp && nodes'[t + 1].size >= live[bp]
    ensures Linked(mem', nodes') && Increasing(nodes') && Sized(mem', live - {bp})
    ensures Sorted(base, nodes', brk, t) && Disjoint(base, nodes', live - {bp}, brk)
    ensures FreeUnits(nodes') == FreeUnits(nodes) + live[bp]
  {
    SortedIncreasing(base, nodes, brk);
    NotANode(base, nodes, live, brk, bp);
    assert LinkedAt(mem, nodes, t) && LinkedAt(mem, nodes, Next(t, |nodes|));
    if t + 1 < |nodes| && bp + live[bp] == nodes[t + 1].addr {
      mem', nodes' := PutJoined(mem, base, nodes, live, brk, t, bp);
    } else {
      mem', nodes' := PutAlone(mem, base, nodes, live, brk, t, bp);
    }
    StillSized(mem, mem', base, nodes, live, brk, bp, t);
  }

  lemma PutJoined(mem: Memory, base: nat, nodes: seq<Node>, live: map<nat, nat>, brk: nat, t: nat, bp: nat)
    returns (mem': Memory, nodes': seq<Node>)
    requires Shape(base, nodes, live, brk) && Linked(mem, nodes) && Sized(mem, live) && bp in live && Between(nodes, t, bp)
    requires Increasing(nodes) && t + 1 < |nodes| && bp + live[bp] == nodes[t + 1].addr
    ensures LinkedAt(mem, nodes, t) && LinkedAt(mem, nodes, t + 1)
    ensures mem' == mem[bp := Headed(mem, bp, nodes[t + 1].addr)][nodes[t].addr := Header(bp, nodes[t].size)]
    ensures |nodes'| == |nodes| && nodes'[t] == nodes[t] && nodes'[t + 1].addr == bp && nodes'[t + 1].size >= live[bp]
    ensures Linked(mem', nodes') && Increasing(nodes')
    ensures Sorted(base, nodes', brk, t) && Disjoint(base, nodes', live - {bp}, brk)
    ensures FreeUnits(nodes') == FreeUnits(nodes) + live[bp]
  {
    assert LinkedAt(mem, nodes, t) && LinkedAt(mem, nodes, t + 1);
    nodes' := JoinNext(base, nodes, live, brk, t, bp);
    mem' := LinkReplaced(mem, nodes, t, Node(bp, live[bp] + nodes[t + 1].size));
  }

  lemma PutAlone(mem: Memory, base: nat, nodes: seq<Node>, live: map<nat, nat>, brk: nat, t: nat, bp: nat)
    returns (mem': Memory, nodes': seq<Node>)
    requires Shape(base, nodes, live, brk) && Linked(mem, nodes) && Sized(mem, live) && bp in live && Between(nodes, t, bp)
    requires Increasing(nodes) && nodes[0].addr < bp && (t + 1 < |nodes| ==> bp + live[bp] != nodes[t + 1].addr)
    ensures LinkedAt(mem, nodes, t) && mem[nodes[t].addr].ptr in mem
    ensures mem' == mem[bp := Headed(mem, bp, mem[nodes[t].addr].ptr)][nodes[t].addr := Header(bp, nodes[t].size)]
    ensures |nodes'| == |nodes| + 1 && nodes'[t] == nodes[t] && nodes'[t + 1] == Node(bp, live[bp])
    ensures Linked(mem', nodes') && Increasing(nodes')
    ensures Sorted(base, nodes', brk, t) && Disjoint(base, nodes', live - {bp}, brk)
    ensures FreeUnits(nodes') == FreeUnits(nodes) + live[bp]
  {
    assert LinkedAt(mem, nodes, t) && LinkedAt(mem, nodes, Next(t, |nodes|));
    assert t + 1 < |nodes| ==> Apart(nodes[t + 1], bp, live[bp]);
    nodes' := InsertNode(base, nodes, live, brk, t, bp);
    mem' := LinkInserted(mem, nodes, t, Node(bp, live[bp]));
    StillIncreasing(nodes, t, Node(bp, live[bp]));
  }

  lemma StillIncreasing(nodes: seq<Node>, t: nat, n: Node)
    requires Increasing(nodes) && Between(nodes, t, n.addr)
    ensures Increasing(nodes[..t + 1] + [n] + nodes[t + 1..])
  {
    var nodes' := nodes[..t + 1] + [n] + nodes[t + 1..];
    forall i, j | 0 <= i < j < |nodes'|
      ensures nodes'[i].addr < nodes'[j].addr
    {
      assert nodes'[i] == if i <= t then nodes[i] else if i == t + 1 then n else nodes[i - 1];
      assert nodes'[j] == if j <= t then nodes[j] else if j == t + 1 then n else nodes[j - 1];
    }
  }

  /** No free block has n units. */
  ghost predicate AllSmall(nodes: seq<Node>, n: nat) {
    forall i :: 0 <= i < |nodes| ==> nodes[i].size < n
  }

  lemma GrownIsBig(nodes: seq<Node>, at: nat, n: nat, nu: nat)
    requires Grown(nodes, at, n) && nu <= n
    ensures !AllSmall(nodes, nu)
  {
    assert nodes[at].size >= n || nodes[at + 1].size >= n;
  }

  lemma FreepIndex(base: nat, nodes: seq<Node>, live: map<nat, nat>, brk: nat, freep: nat) returns (s: nat)
    requires Shape(base, nodes, live, brk) && exists k :: 0 <= k < |nodes| && nodes[k].addr == freep
    ensures s < |nodes| && nodes[s].addr == freep && Increasing(nodes)
  {
    s :| 0 <= s < |nodes| && nodes[s].addr == freep;
    SortedIncreasing(base, nodes, brk);
  }

  /** Node i is one of the `seen` nodes that follow node s on the ring of n nodes. */
  predicate Passed(i: nat, s: nat, seen: nat, n: nat) {
    if s < i then i - s <= seen else i + n - s <= seen
  }

  /** morecore asks for 4096 units or more. */
  function CoreUnits(nu: nat): nat {
    if nu < 4096 then 4096 else nu
  }

  /** Memory at the break belongs to nobody yet; treat it as a live block about to be freed. */
  lemma NewCore(mem: Memory, base: nat, nodes: seq<Node>, live: map<nat, nat>, brk: nat, n: nat)
    returns (mem': Memory, live': map<nat, nat>, end: nat)
    requires Shape(base, nodes, live, brk) && Linked(mem, nodes) && Sized(mem, live) && n > 0 && base < brk
    ensures end == brk + n
    ensures mem' == mem[brk := Header(if brk in mem then mem[brk].ptr else 0, n)]
    ensures brk in live' && live'[brk] == n && live' - {HeaderOf(brk + 1)} == live
    ensures Shape(base, nodes, live', end) && Linked(mem', nodes) && Sized(mem', live')
    ensures LiveUnits(live') == LiveUnits(live) + n
  {
    end := brk + n;
    mem' := mem[brk := Header(if brk in mem then mem[brk].ptr else 0, n)];
    live' := live[brk := n];
    LinkedAbove(mem, base, nodes, brk, mem'[brk]);
    LiveAbove(base, nodes, live, brk, n, live', end);
    LiveUnitsAdd(live, brk, n);
  }

  lemma LiveAbove(base: nat, nodes: seq<Node>, live: map<nat, nat>, brk: nat, n: nat, live': map<nat, nat>, end: nat)
    requires Shape(base, nodes, live, brk) && n > 0 && base < brk && end == brk + n && live' == live[brk := n]
    ensures brk !in live && live' - {brk} == live && Shape(base, nodes, live', end)
  {
    assert brk !in live;
  }

  lemma LinkedAbove(mem: Memory, base: nat, nodes: seq<Node>, brk: nat, h: Header)
    requires Linked(mem, nodes) && Sorted(base, nodes, brk, |nodes|) && base < brk
    ensures Linked(mem[brk := h], nodes)
  {
    var mem' := mem[brk := h];
    forall i | 0 <= i < |nodes|
      ensures LinkedAt(mem', nodes, i)
    {
      assert LinkedAt(mem, nodes, i);
    }
  }

  lemma NodesNotLive(base: nat, nodes: seq<Node>, live: map<nat, nat>, brk: nat, i: nat)
    requires Shape(base, nodes, live, brk) && i < |nodes|
    ensures nodes[i].addr !in live
  {
    assert forall a :: a in live ==> Apart(nodes[i], a, live[a]);
  }

  lemma UnlinkNode(mem: Memory, base: nat, nodes: seq<Node>, live: map<nat, nat>, brk: nat, k: nat)
    returns (mem': Memory, nodes': seq<Node>, live': map<nat, nat>)
    requires Shape(base, nodes, live, brk) && Linked(mem, nodes) && Sized(mem, live) && k + 1 < |nodes|
    ensures LinkedAt(mem, nodes, k) && LinkedAt(mem, nodes, k + 1)
    ensures var p, q := nodes[k].addr, nodes[k + 1].addr;
            mem' == mem[p := Header(mem[q].ptr, mem[p].size)] && q !in live && live' == live[q := nodes[k + 1].size]
    ensures Shape(base, nodes', live', brk) && Linked(mem', nodes') && Sized(mem', live')
    ensures FreeUnits(nodes') + LiveUnits(live') == FreeUnits(nodes) + LiveUnits(live)
    ensures k < |nodes'| && nodes'[k] == nodes[k]
  {
    assert LinkedAt(mem, nodes, k) && LinkedAt(mem, nodes, k + 1);
    SortedIncreasing(base, nodes, brk);
    TakeWhole(base, nodes, live, brk, k + 1);
    NodesNotLive(base, nodes, live, brk, k);
    mem' := LinkRemoved(mem, nodes, k, nodes[k]);
    assert nodes[k := nodes[k]] == nodes;
    nodes', live' := Without(nodes, k + 1), live[nodes[k + 1].addr := nodes[k + 1].size];
  }

  lemma SplitNode(mem: Memory, base: nat, nodes: seq<Node>, live: map<nat, nat>, brk: nat, j: nat, n: nat, p: nat)
    returns (bp: nat, mem': Memory, nodes': seq<Node>, live': map<nat, nat>)
    requires Shape(base, nodes, live, brk) && Linked(mem, nodes) && Sized(mem, live) && 0 < j < |nodes| && 0 < n < nodes[j].size
    requires p == nodes[j].addr
    ensures p in mem && mem[p].size > n && bp == p + (mem[p].size - n) && bp !in live && live' == live[bp := n]
    ensures mem' == mem[p := Header(mem[p].ptr, mem[p].size - n)][bp := Header(if bp in mem then mem[bp].ptr else 0, n)]
    ensures p != bp && Shape(base, nodes', live', brk) && Linked(mem', nodes') && Sized(mem', live')
    ensures FreeUnits(nodes') + LiveUnits(live') == FreeUnits(nodes) + LiveUnits(live)
    ensures |nodes'| == |nodes| && nodes'[j - 1] == nodes[j - 1]
  {
    assert LinkedAt(mem, nodes, j);
    SortedIncreasing(base, nodes, brk);
    NodesNotLive(base, nodes, live, brk, j);
    bp, nodes' := TakePart(base, nodes, live, brk, j, n);
    live' := live[bp := n];
    mem' := mem[p := Header(mem[p].ptr, mem[p].size - n)][bp := Header(if bp in mem then mem[bp].ptr else 0, n)];
    SplitLinked(mem, nodes, j, n, bp);
    SplitSized(mem, live, p, bp, mem[p].size - n, n);
  }

  lemma SplitSized(mem: Memory, live: map<nat, nat>, p: nat, bp: nat, rest: nat, n: nat)
    requires Sized(mem, live) && p in mem && p !in live && p != bp
    ensures Sized(mem[p := Header(mem[p].ptr, rest)][bp := Header(if bp in mem then mem[bp].ptr else 0, n)], live[bp := n])
  {
  }

  lemma SplitLinked(mem: Memory, nodes: seq<Node>, j: nat, n: nat, bp: nat)
    requires Linked(mem, nodes) && Increasing(nodes) && 0 < j < |nodes| && 0 < n < nodes[j].size
    requires forall i :: 0 <= i < |nodes| ==> nodes[i].addr != bp
    ensures nodes[j].addr in mem
    ensures var p := nodes[j].addr;
      Linked(mem[p := Header(mem[p].ptr, nodes[j].size - n)][bp := Header(if bp in mem then mem[bp].ptr else 0, n)],
             nodes[j := Node(p, nodes[j].size - n)])
  {
    var p := nodes[j].addr;
    assert LinkedAt(mem, nodes, j);
    var mem' := mem[p := Header(mem[p].ptr, nodes[j].size - n)][bp := Header(if bp in mem then mem[bp].ptr else 0, n)];
    var nodes' := nodes[j := Node(p, nodes[j].size - n)];
    forall i | 0 <= i < |nodes'|
      ensures LinkedAt(mem', nodes', i)
    {
      assert LinkedAt(mem, nodes, i);
    }
  }

  lemma NotANode(base: nat, nodes: seq<Node>, live: map<nat, nat>, brk: nat, a: nat)
    requires Shape(base, nodes, live, brk) && a in live
    ensures nodes[0].addr < a && forall i :: 0 <= i < |nodes| ==> nodes[i].addr != a
  {
    forall i | 0 <= i < |nodes|
      ensures nodes[i].addr != a
    {
      assert Apart(nodes[i], a, live[a]);
    }
  }
}
