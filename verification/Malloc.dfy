/** The kernel's malloc and free (pintos/src/threads/malloc.c): descriptors for the block sizes 16 to
    1024, arenas of one page cut into blocks, and big blocks of whole pages. Pages come from and go back
    to the page allocator, whose answer to a request is a parameter here. */
module Malloc {
  import Bits
  import opened Options
  import opened Pages
  import opened Queues

  const HEADER: nat := 12        // sizeof (struct arena)
  const DESC_CNT: nat := 7

  datatype Desc = Desc(blockSize: nat, blocksPerArena: nat)

  /** An arena's header; a big block has no descriptor, and its freeCnt is its number of pages. */
  datatype Arena = Arena(desc: Option<nat>, freeCnt: nat)

  /** Block sizes, and how many blocks fit behind the header */
  function Size(d: nat): (r: nat)
    ensures r >= 16
  {
    if d == 0 then 16 else 2 * Size(d - 1)
  }

  function PerArena(d: nat): nat { if d == 0 then (PGSIZE - HEADER) / 16 else PerArena(d - 1) / 2 }

  lemma {:induction false} Sizes()
    ensures Size(0) == 16 && Size(1) == 32 && Size(2) == 64 && Size(3) == 128 && Size(4) == 256
    ensures Size(5) == 512 && Size(6) == 1024 && Size(7) == 2048
    ensures PerArena(0) == 255 && PerArena(1) == 127 && PerArena(2) == 63 && PerArena(3) == 31 && PerArena(4) == 15
    ensures PerArena(5) == 7 && PerArena(6) == 3 && PerArena(7) == 1
  {
    assert Size(2) == 64 && Size(4) == 256 && PerArena(2) == 63 && PerArena(4) == 15;
  }

  lemma {:induction false} PerArenaIsQuotient(d: nat)
    requires d <= DESC_CNT
    ensures PerArena(d) == (PGSIZE - HEADER) / Size(d) && PerArena(d) > 0 && PerArena(d) * Size(d) <= PGSIZE - HEADER
  {
    Sizes();
  }

  /** malloc_init: the loop fills seven of the ten descriptors. */
  method Init() returns (descs: seq<Desc>)
    ensures |descs| == DESC_CNT <= 10
    ensures forall d :: 0 <= d < |descs| ==> descs[d] == Desc(Size(d), PerArena(d))
    ensures descs == [Desc(16, 255), Desc(32, 127), Desc(64, 63), Desc(128, 31), Desc(256, 15), Desc(512, 7),
      Desc(1024, 3)]
  {
    descs := [];
    var blockSize := 16;
    Sizes();
    while blockSize < PGSIZE / 2
      invariant |descs| <= DESC_CNT && blockSize == Size(|descs|)
      invariant |descs| < DESC_CNT <==> blockSize < PGSIZE / 2
      invariant forall d :: 0 <= d < |descs| ==> descs[d] == Desc(Size(d), PerArena(d))
      decreases DESC_CNT - |descs|
    {
      SizeGrows(|descs|);
      PerArenaIsQuotient(|descs|);
      descs := descs + [Desc(blockSize, (PGSIZE - HEADER) / blockSize)];
      blockSize := blockSize * 2;
    }
  }

  lemma {:induction false} SizeGrows(d: nat)
    requires d < DESC_CNT
    ensures Size(d + 1) < PGSIZE / 2 <==> d + 1 < DESC_CNT
    ensures Size(d) < PGSIZE / 2
  {
    Sizes();
  }

  lemma {:induction false} SizeMonotone(d: nat)
    requires d < DESC_CNT
    ensures Size(d) <= Size(DESC_CNT - 1)
    decreases DESC_CNT - d
  {
    if d < DESC_CNT - 1 { SizeMonotone(d + 1); }
  }

  // ----- addresses

  function PageOf(b: nat): nat { b - b % PGSIZE }

  function BlockAt(a: nat, d: nat, i: nat): nat { a + HEADER + i * Size(d) }

  predicate PageAligned(a: nat) { a % PGSIZE == 0 }

  lemma {:induction false} Product(i: nat, j: nat, m: nat)
    requires i < j
    ensures i * m + m <= j * m
  {
    assert (j - i - 1) * m >= 0;
    assert j * m == i * m + m + (j - i - 1) * m;
  }

  /** A block lies behind the header and inside the page; blocks of one arena follow each other. */
  lemma {:induction false} BlockInPage(a: nat, d: nat, i: nat)
    requires PageAligned(a) && d < DESC_CNT && i < PerArena(d)
    ensures a + HEADER <= BlockAt(a, d, i) && BlockAt(a, d, i) + Size(d) <= a + PGSIZE
    ensures PageOf(BlockAt(a, d, i)) == a
  {
    BlockOffset(d, i);
    OffsetInPage(a, i * Size(d), Size(d));
  }

  lemma {:induction false} BlockOffset(d: nat, i: nat)
    requires d < DESC_CNT && i < PerArena(d)
    ensures i * Size(d) + Size(d) <= PGSIZE - HEADER
  {
    PerArenaIsQuotient(d);
    Product(i, PerArena(d), Size(d));
  }

  lemma {:induction false} OffsetInPage(a: nat, x: nat, size: nat)
    requires PageAligned(a) && x + size <= PGSIZE - HEADER && size > 0
    ensures PageOf(a + HEADER + x) == a
  {
    InPage(a, HEADER + x);
  }

  lemma {:induction false} InPage(a: nat, x: nat)
    requires PageAligned(a) && x < PGSIZE
    ensures PageOf(a + x) == a
  {
  }

  lemma {:induction false} BlocksApart(a: nat, d: nat, i: nat, j: nat)
    requires i < j
    ensures BlockAt(a, d, i) + Size(d) <= BlockAt(a, d, j)
  {
    Product(i, j, Size(d));
  }

  /** The first n blocks of an arena */
  ghost function Blocks(a: nat, d: nat, n: nat): set<nat> {
    if n == 0 then {} else Blocks(a, d, n - 1) + {BlockAt(a, d, n - 1)}
  }

  lemma {:induction false} BlockIsAt(a: nat, d: nat, n: nat, b: nat) returns (i: nat)
    requires b in Blocks(a, d, n)
    ensures i < n && b == BlockAt(a, d, i)
  {
    if b == BlockAt(a, d, n - 1) { i := n - 1; } else { i := BlockIsAt(a, d, n - 1, b); }
  }

  lemma {:induction false} BlockIsIn(a: nat, d: nat, n: nat, i: nat)
    requires i < n
    ensures BlockAt(a, d, i) in Blocks(a, d, n)
  {
    if i < n - 1 { BlockIsIn(a, d, n - 1, i); }
  }

  lemma {:induction false} NextBlock(a: nat, d: nat, n: nat)
    ensures BlockAt(a, d, n) !in Blocks(a, d, n)
  {
    if BlockAt(a, d, n) in Blocks(a, d, n) {
      var i := BlockIsAt(a, d, n, BlockAt(a, d, n));
      BlocksApart(a, d, i, n);
    }
  }

  lemma {:induction false} Multiple(i: nat, m: nat)
    requires m > 0
    ensures i * m % m == 0
  {
    Bits.Remainder(i * m, m, i, 0);
  }

  lemma {:induction false} BlockCount(a: nat, d: nat, n: nat)
    ensures |Blocks(a, d, n)| == n
  {
    if n > 0 {
      BlockCount(a, d, n - 1);
      NextBlock(a, d, n - 1);
    }
  }

  ghost function AllBlocks(a: nat, d: nat): set<nat> { Blocks(a, d, PerArena(d)) }

  lemma {:induction false} AlignedBlock(a: nat, d: nat, p: nat)
    requires PageAligned(a) && d < DESC_CNT && p in AllBlocks(a, d)
    ensures p % PGSIZE >= HEADER && (p % PGSIZE - HEADER) % Size(d) == 0
  {
    var i := BlockIsAt(a, d, PerArena(d), p);
    BlockInPage(a, d, i);
    assert p % PGSIZE - HEADER == i * Size(d);
    Multiple(i, Size(d));
  }

  lemma {:induction false} TwoBlocks(a: nat, d: nat, p: nat, q: nat)
    requires p in AllBlocks(a, d) && q in AllBlocks(a, d) && p != q
    ensures p + Size(d) <= q || q + Size(d) <= p
  {
    var i := BlockIsAt(a, d, PerArena(d), p);
    var j := BlockIsAt(a, d, PerArena(d), q);
    if i < j { BlocksApart(a, d, i, j); } else { BlocksApart(a, d, j, i); }
  }

  // ----- the heap

  /** freeLists of the descriptors, arenas by page address, and, as history, the sizes asked for the
      blocks that have been given out and not freed. */
  datatype Heap = Heap(free: seq<seq<nat>>, arenas: map<nat, Arena>, live: map<nat, nat>)

  ghost function FreeIn(list: seq<nat>, a: nat): set<nat> { set b | b in list && PageOf(b) == a }

  ghost function LiveIn(live: map<nat, nat>, a: nat): map<nat, nat> { map b | b in live && PageOf(b) == a :: live[b] }

  function PageCount(x: Arena): nat { if x.desc.Some? then 1 else x.freeCnt }

  const SIZE_T: nat := 0x1_0000_0000

  /** The number of pages for a big block, computed with 32 bits */
  function BigPages(size: nat): nat { (size + HEADER + PGSIZE - 1) % SIZE_T / PGSIZE }

  /** The computation of the number of pages wraps around. */
  predicate Wraps(size: nat) { size + HEADER + PGSIZE - 1 >= SIZE_T }

  predicate BigOk(size: nat, n: nat) { size < SIZE_T && n == BigPages(size) && n > 0 }

  /** A big block is as large as asked for exactly if the computation does not wrap around. */
  lemma {:induction false} BigEnoughIff(size: nat)
    requires size < SIZE_T
    ensures size + HEADER <= BigPages(size) * PGSIZE <==> !Wraps(size)
  {
    if Wraps(size) { WrappedPages(size); } else { RoundsUp(size + HEADER); }
  }

  lemma {:induction false} RoundsUp(x: nat)
    ensures x <= (x + PGSIZE - 1) / PGSIZE * PGSIZE
  {
  }

  /** And then it has no more pages than it needs. */
  lemma {:induction false} BigPagesAreLeast(size: nat, n: nat)
    requires !Wraps(size)
    ensures size + HEADER <= n * PGSIZE <==> BigPages(size) <= n
  {
    var m, x := BigPages(size), size + HEADER + PGSIZE - 1;
    assert x % SIZE_T == x;
    assert m * PGSIZE <= x < m * PGSIZE + PGSIZE;
  }

  /** Where it does, the last eleven sizes, up to 2^32 - 1 bytes, get a block of one page, and the others none. */
  lemma {:induction false} WrappedPages(size: nat)
    requires size < SIZE_T && Wraps(size)
    ensures BigPages(size) == if size < SIZE_T - 11 then 0 else 1
    ensures BigPages(SIZE_T - 1) == 1
  {
    assert (size + HEADER + PGSIZE - 1) % SIZE_T == size + HEADER + PGSIZE - 1 - SIZE_T;
  }

  /** All that concerns one arena: its header, its blocks on the free list, and those in use. */
  datatype View = View(x: Arena, spare: set<nat>, used: map<nat, nat>)

  ghost function ViewOf(h: Heap, a: nat): View
    requires a in h.arenas
  {
    var x := h.arenas[a];
    View(x, if x.desc.Some? && x.desc.value < |h.free| then FreeIn(h.free[x.desc.value], a) else {}, LiveIn(h.live, a))
  }

  /** An arena of one page is exactly divided between blocks on the free list, which freeCnt counts, and
      blocks in use; a big block is in use. */
  ghost predicate ViewOk(a: nat, v: View) {
    && PageAligned(a)
    && match v.x.desc
       case Some(d) =>
         && d < DESC_CNT && v.spare + v.used.Keys == AllBlocks(a, d) && v.spare !! v.used.Keys
           && v.x.freeCnt == |v.spare|
         && (forall p | p in v.used :: v.used[p] <= Size(d))
       case None =>
         v.used.Keys == {a + HEADER} && BigOk(v.used[a + HEADER], v.x.freeCnt)
  }

  ghost predicate ArenaOk(h: Heap, a: nat)
    requires a in h.arenas
  {
    ViewOk(a, ViewOf(h, a))
  }

  ghost predicate ListOk(h: Heap, d: nat)
    requires d < |h.free|
  {
    Distinct(h.free[d]) && forall b | b in h.free[d] :: PageOf(b) in h.arenas && h.arenas[PageOf(b)].desc == Some(d)
  }

  ghost predicate Apart(a: nat, n: nat, b: nat, m: nat) {
    a + n * PGSIZE <= b || b + m * PGSIZE <= a
  }

  ghost predicate ListsOk(h: Heap) {
    |h.free| == DESC_CNT && forall d :: 0 <= d < DESC_CNT ==> ListOk(h, d)
  }

  /** young may be an arena none of whose blocks is in use; all others have one. */
  ghost predicate ArenasOk(h: Heap, young: Option<nat>) {
    forall a | a in h.arenas :: ArenaOk(h, a) && (young != Some(a) ==> ViewOf(h, a).used.Keys != {})
  }

  ghost predicate SpaceOk(h: Heap) {
    && (forall p | p in h.live :: PageOf(p) in h.arenas)
    && (forall a, b | a in h.arenas && b in h.arenas && a != b ::
      Apart(a, PageCount(h.arenas[a]), b, PageCount(h.arenas[b])))
  }

  ghost predicate HeapOk(h: Heap, young: Option<nat>) {
    ListsOk(h) && ArenasOk(h, young) && SpaceOk(h)
  }

  /** What the page allocator promises of the n pages at page: they are no one else's. */
  ghost predicate FreshRun(h: Heap, page: nat, n: nat) {
    PageAligned(page) && page !in h.arenas && forall a | a in h.arenas :: Apart(page, n, a, PageCount(h.arenas[a]))
  }

  // ----- changes that concern one arena

  /** Arena b is not concerned by a change from h to h'. */
  ghost predicate SameArena(h: Heap, h': Heap, b: nat) {
    b in h.arenas && b in h'.arenas && ViewOf(h', b) == ViewOf(h, b)
  }

  /** A change that concerns arena a alone, which may be new, or go. */
  lemma {:induction false} OneArena(h: Heap, h': Heap, young: Option<nat>, young': Option<nat>, a: nat)
    requires ArenasOk(h, young) && (young.None? || young == Some(a)) && (young'.None? || young' == Some(a))
    requires forall b | b in h'.arenas && b != a :: SameArena(h, h', b)
    requires a in h'.arenas ==> ArenaOk(h', a) && (young'.None? ==> ViewOf(h', a).used.Keys != {})
    ensures ArenasOk(h', young')
  {
    forall b | b in h'.arenas ensures ArenaOk(h', b) && (young' != Some(b) ==> ViewOf(h', b).used.Keys != {}) {
      if b != a {
        assert SameArena(h, h', b);
        assert ArenaOk(h, b) && ViewOf(h, b).used.Keys != {};
      }
    }
  }

  // ----- list changes

  lemma {:induction false} PushFront(list: seq<nat>, b: nat, a: nat)
    requires Distinct(list) && b !in list
    ensures Distinct([b] + list) && FreeIn([b] + list, a) == FreeIn(list, a) + (if PageOf(b) == a then {b} else {})
  {
  }

  lemma {:induction false} PopFront(list: seq<nat>, a: nat)
    requires Distinct(list) && list != []
    ensures Distinct(list[1..])
      && FreeIn(list[1..], a) == FreeIn(list, a) - (if PageOf(list[0]) == a then {list[0]} else {})
  {
    Popped(list);
  }

  /** list with the elements of gone taken out */
  function Keep(list: seq<nat>, gone: set<nat>): seq<nat> {
    if list == [] then [] else if list[0] in gone then Keep(list[1..], gone) else [list[0]] + Keep(list[1..], gone)
  }

  lemma {:induction false} KeepIn(list: seq<nat>, gone: set<nat>)
    ensures forall b :: b in Keep(list, gone) <==> b in list && b !in gone
  {
    if list != [] {
      KeepIn(list[1..], gone);
      assert forall b :: b in list <==> b == list[0] || b in list[1..];
    }
  }

  lemma {:induction false} KeepDistinct(list: seq<nat>, gone: set<nat>)
    requires Distinct(list)
    ensures Distinct(Keep(list, gone))
  {
    if list != [] {
      KeepDistinct(list[1..], gone);
      KeepIn(list[1..], gone);
    }
  }

  lemma {:induction false} KeepNothing(list: seq<nat>)
    ensures Keep(list, {}) == list
  {
    if list != [] { KeepNothing(list[1..]); }
  }

  lemma {:induction false} KeepOne(list: seq<nat>, gone: set<nat>, b: nat)
    requires b !in list
    ensures Keep(list, gone + {b}) == Keep(list, gone)
  {
    if list != [] { KeepOne(list[1..], gone, b); }
  }

  lemma {:induction false} WithoutKeep(list: seq<nat>, gone: set<nat>, b: nat)
    requires Distinct(list) && b in list && b !in gone
    ensures b in Keep(list, gone) && Without(Keep(list, gone), b) == Keep(list, gone + {b})
  {
    KeepIn(list, gone);
    if list[0] == b {
      KeepOne(list[1..], gone, b);
    } else {
      WithoutKeep(list[1..], gone, b);
      var k := Keep(list[1..], gone);
      assert list[0] !in gone ==> Keep(list, gone) == [list[0]] + k && ([list[0]] + k)[1..] == k;
    }
  }

  // ----- a new arena

  function NewBlocks(a: nat, d: nat, n: nat): seq<nat> { seq(n, i requires 0 <= i => BlockAt(a, d, i)) }

  function NewArena(h: Heap, d: nat, page: nat): Heap
    requires d < |h.free|
  {
    h.(free := h.free[d := h.free[d] + NewBlocks(page, d, PerArena(d))],
       arenas := h.arenas[page := Arena(Some(d), PerArena(d))])
  }

  lemma {:induction false} NewBlocksDistinct(a: nat, d: nat, n: nat)
    ensures Distinct(NewBlocks(a, d, n))
  {
    forall i, j | 0 <= i < j < n ensures NewBlocks(a, d, n)[i] != NewBlocks(a, d, n)[j] {
      BlocksApart(a, d, i, j);
    }
  }

  lemma {:induction false} NewBlocksIn(a: nat, d: nat)
    requires PageAligned(a) && d < DESC_CNT
    ensures forall b :: b in NewBlocks(a, d, PerArena(d)) <==> b in AllBlocks(a, d)
    ensures forall b | b in AllBlocks(a, d) :: PageOf(b) == a
  {
    forall b | b in AllBlocks(a, d) ensures PageOf(b) == a && b in NewBlocks(a, d, PerArena(d)) {
      var i := BlockIsAt(a, d, PerArena(d), b);
      BlockInPage(a, d, i);
      assert NewBlocks(a, d, PerArena(d))[i] == b;
    }
    forall b | b in NewBlocks(a, d, PerArena(d)) ensures b in AllBlocks(a, d) {
      var i :| 0 <= i < PerArena(d) && NewBlocks(a, d, PerArena(d))[i] == b;
      BlockIsIn(a, d, PerArena(d), i);
    }
  }

  lemma {:induction false} NewArenaItself(h: Heap, d: nat, page: nat)
    requires |h.free| == DESC_CNT && d < DESC_CNT && h.free[d] == [] && PageAligned(page)
      && LiveIn(h.live, page) == map[]
    ensures ArenaOk(NewArena(h, d, page), page) && ListOk(NewArena(h, d, page), d)
  {
    var h' := NewArena(h, d, page);
    var blocks := NewBlocks(page, d, PerArena(d));
    assert h'.free[d] == blocks;
    NewBlocksDistinct(page, d, PerArena(d));
    NewBlocksIn(page, d);
    BlockCount(page, d, PerArena(d));
    assert FreeIn(blocks, page) == AllBlocks(page, d);
  }

  lemma {:induction false} NewArenaOther(h: Heap, d: nat, page: nat, b: nat)
    requires |h.free| == DESC_CNT && d < DESC_CNT && h.free[d] == [] && PageAligned(page) && b in h.arenas && b != page
    ensures SameArena(h, NewArena(h, d, page), b)
  {
    var h' := NewArena(h, d, page);
    NewBlocksIn(page, d);
    assert FreeIn(h'.free[d], b) == FreeIn(h.free[d], b);
  }

  lemma {:induction false} NewArenaArenas(h: Heap, d: nat, page: nat)
    requires |h.free| == DESC_CNT && ArenasOk(h, None) && d < DESC_CNT && h.free[d] == [] && PageAligned(page)
      && page !in h.arenas
    requires LiveIn(h.live, page) == map[]
    ensures ArenasOk(NewArena(h, d, page), Some(page))
  {
    var h' := NewArena(h, d, page);
    NewArenaItself(h, d, page);
    forall b | b in h.arenas ensures SameArena(h, h', b) { NewArenaOther(h, d, page, b); }
    OneArena(h, h', None, Some(page), page);
  }

  lemma {:induction false} NewArenaOk(h: Heap, d: nat, page: nat)
    requires HeapOk(h, None) && d < DESC_CNT && h.free[d] == [] && FreshRun(h, page, 1)
    ensures HeapOk(NewArena(h, d, page), Some(page))
  {
    NothingLive(h, page);
    NewArenaArenas(h, d, page);
    NewArenaLists(h, d, page);
    NewArenaSpace(h, d, page);
  }

  lemma {:induction false} NewArenaLists(h: Heap, d: nat, page: nat)
    requires ListsOk(h) && d < DESC_CNT && h.free[d] == [] && PageAligned(page) && page !in h.arenas
      && LiveIn(h.live, page) == map[]
    ensures ListsOk(NewArena(h, d, page))
  {
    var h' := NewArena(h, d, page);
    NewArenaItself(h, d, page);
    forall e | 0 <= e < DESC_CNT ensures ListOk(h', e) { if e != d { assert ListOk(h, e); } }
  }

  lemma {:induction false} NewArenaSpace(h: Heap, d: nat, page: nat)
    requires |h.free| == DESC_CNT && SpaceOk(h) && d < DESC_CNT && FreshRun(h, page, 1)
    ensures SpaceOk(NewArena(h, d, page))
  {
  }

  lemma {:induction false} NewArenaFirst(h: Heap, d: nat, page: nat)
    requires d < |h.free| && d < DESC_CNT && h.free[d] == [] && PageAligned(page)
    ensures var h' := NewArena(h, d, page);
      h'.free[d] != [] && PageOf(h'.free[d][0]) == page && h'.arenas.Keys == h.arenas.Keys + {page} && h'.live == h.live
  {
    PerArenaIsQuotient(d);
    BlockInPage(page, d, 0);
  }

  // ----- a block from the free list

  function PopBlock(h: Heap, d: nat, size: nat): Heap
    requires d < |h.free| && h.free[d] != [] && PageOf(h.free[d][0]) in h.arenas
      && h.arenas[PageOf(h.free[d][0])].freeCnt > 0
  {
    var b := h.free[d][0];
    var x := h.arenas[PageOf(b)];
    Heap(h.free[d := h.free[d][1..]], h.arenas[PageOf(b) := x.(freeCnt := x.freeCnt - 1)], h.live[b := size])
  }

  /** What it takes to give out the first block of list d */
  ghost predicate Ready(h: Heap, d: nat) {
    && |h.free| == DESC_CNT && d < DESC_CNT && h.free[d] != [] && ListOk(h, d)
    && var a := PageOf(h.free[d][0]);
    a in h.arenas && h.arenas[a].desc == Some(d) && h.arenas[a].freeCnt > 0 && ArenaOk(h, a)
  }

  lemma {:induction false} PopReady(h: Heap, young: Option<nat>, d: nat)
    requires HeapOk(h, young) && d < DESC_CNT && h.free[d] != []
    ensures Ready(h, d) && h.free[d][0] !in h.live && h.free[d][0] in AllBlocks(PageOf(h.free[d][0]), d)
  {
    var b := h.free[d][0];
    assert ListOk(h, d);
    assert ArenaOk(h, PageOf(b));
    assert b in FreeIn(h.free[d], PageOf(b));
    assert b !in LiveIn(h.live, PageOf(b));
  }

  lemma {:induction false} PopView(h: Heap, d: nat, size: nat)
    requires d < |h.free| && h.free[d] != [] && Distinct(h.free[d]) && PageOf(h.free[d][0]) in h.arenas
    requires h.arenas[PageOf(h.free[d][0])].freeCnt > 0 && h.arenas[PageOf(h.free[d][0])].desc == Some(d)
    ensures var b, v := h.free[d][0], ViewOf(h, PageOf(h.free[d][0]));
      ViewOf(PopBlock(h, d, size), PageOf(b)) == View(v.x.(freeCnt := v.x.freeCnt - 1), v.spare - {b},
        v.used[b := size]) && b in v.spare
  {
    var b := h.free[d][0];
    PopFront(h.free[d], PageOf(b));
    assert LiveIn(PopBlock(h, d, size).live, PageOf(b)) == LiveIn(h.live, PageOf(b))[b := size];
  }

  lemma {:induction false} PopItself(h: Heap, d: nat, size: nat)
    requires Ready(h, d) && size <= Size(d)
    ensures var a := PageOf(h.free[d][0]);
      ArenaOk(PopBlock(h, d, size), a) && h.free[d][0] in ViewOf(PopBlock(h, d, size), a).used
  {
    PopView(h, d, size);
    TakeSpare(PageOf(h.free[d][0]), ViewOf(h, PageOf(h.free[d][0])), h.free[d][0], size);
  }

  lemma {:induction false} TakeSpare(a: nat, v: View, b: nat, size: nat)
    requires ViewOk(a, v) && v.x.desc.Some? && b in v.spare && size <= Size(v.x.desc.value) && v.x.freeCnt > 0
    ensures ViewOk(a, View(v.x.(freeCnt := v.x.freeCnt - 1), v.spare - {b}, v.used[b := size]))
  {
  }

  lemma {:induction false} PopOther(h: Heap, d: nat, size: nat, b: nat)
    requires Ready(h, d) && b in h.arenas && b != PageOf(h.free[d][0])
    ensures SameArena(h, PopBlock(h, d, size), b)
  {
    PopFront(h.free[d], b);
    assert LiveIn(PopBlock(h, d, size).live, b) == LiveIn(h.live, b);
  }

  lemma {:induction false} PopArenas(h: Heap, young: Option<nat>, d: nat, size: nat)
    requires Ready(h, d) && ArenasOk(h, young) && size <= Size(d)
      && (young.Some? ==> PageOf(h.free[d][0]) == young.value)
    ensures ArenasOk(PopBlock(h, d, size), None)
  {
    var h', a := PopBlock(h, d, size), PageOf(h.free[d][0]);
    PopItself(h, d, size);
    forall b | b in h.arenas && b != a ensures SameArena(h, h', b) { PopOther(h, d, size, b); }
    OneArena(h, h', young, None, a);
  }

  lemma {:induction false} PopLists(h: Heap, d: nat, size: nat)
    requires Ready(h, d) && ListsOk(h)
    ensures ListsOk(PopBlock(h, d, size))
  {
    var h' := PopBlock(h, d, size);
    Popped(h.free[d]);
    forall e | 0 <= e < DESC_CNT ensures ListOk(h', e) { assert ListOk(h, e); }
  }

  lemma {:induction false} PopOk(h: Heap, young: Option<nat>, d: nat, size: nat)
    requires HeapOk(h, young) && d < DESC_CNT && h.free[d] != [] && size <= Size(d)
    requires young.Some? ==> PageOf(h.free[d][0]) == young.value
    ensures Ready(h, d) && HeapOk(PopBlock(h, d, size), None)
  {
    PopReady(h, young, d);
    PopArenas(h, young, d, size);
    PopLists(h, d, size);
    PopSpace(h, d, size);
  }

  lemma {:induction false} PopSpace(h: Heap, d: nat, size: nat)
    requires Ready(h, d) && SpaceOk(h)
    ensures SpaceOk(PopBlock(h, d, size))
  {
  }

  // ----- a block back onto the free list

  function PushBlock(h: Heap, d: nat, p: nat): Heap
    requires d < |h.free| && PageOf(p) in h.arenas
  {
    var x := h.arenas[PageOf(p)];
    Heap(h.free[d := [p] + h.free[d]], h.arenas[PageOf(p) := x.(freeCnt := x.freeCnt + 1)], h.live - {p})
  }

  /** p is a block in use, of descriptor d. */
  ghost predicate InUse(h: Heap, d: nat, p: nat) {
    && |h.free| == DESC_CNT && d < DESC_CNT && p in h.live && ListOk(h, d)
    && PageOf(p) in h.arenas && h.arenas[PageOf(p)].desc == Some(d) && ArenaOk(h, PageOf(p))
  }

  lemma {:induction false} PushView(h: Heap, d: nat, p: nat)
    requires d < |h.free| && Distinct(h.free[d]) && p !in h.free[d] && PageOf(p) in h.arenas
      && h.arenas[PageOf(p)].desc == Some(d)
    ensures var v := ViewOf(h, PageOf(p));
      ViewOf(PushBlock(h, d, p), PageOf(p)) == View(v.x.(freeCnt := v.x.freeCnt + 1), v.spare + {p}, v.used - {p})
  {
    PushFront(h.free[d], p, PageOf(p));
    assert LiveIn(h.live - {p}, PageOf(p)) == LiveIn(h.live, PageOf(p)) - {p};
  }

  lemma {:induction false} GiveBack(a: nat, v: View, p: nat)
    requires ViewOk(a, v) && v.x.desc.Some? && p in v.used
    ensures p !in v.spare && ViewOk(a, View(v.x.(freeCnt := v.x.freeCnt + 1), v.spare + {p}, v.used - {p}))
  {
    assert (v.spare + {p}) + (v.used - {p}).Keys == v.spare + v.used.Keys;
  }

  /** freeCnt is the number of blocks of the arena when, and only when, none of them is in use. */
  lemma {:induction false} FullWhenUnused(a: nat, v: View, d: nat)
    requires ViewOk(a, v) && v.x.desc == Some(d)
    ensures v.x.freeCnt <= PerArena(d)
    ensures v.x.freeCnt == PerArena(d) <==> v.used == map[]
    ensures v.used == map[] ==> v.spare == AllBlocks(a, d)
  {
    BlockCount(a, d, PerArena(d));
    assert |v.spare + v.used.Keys| == |v.spare| + |v.used.Keys|;
    assert |v.used.Keys| == 0 <==> v.used.Keys == {};
  }

  lemma {:induction false} PushItself(h: Heap, d: nat, p: nat)
    requires InUse(h, d, p)
    ensures p !in h.free[d] && ArenaOk(PushBlock(h, d, p), PageOf(p))
  {
    var v := ViewOf(h, PageOf(p));
    assert p in v.used;
    GiveBack(PageOf(p), v, p);
    assert p in h.free[d] ==> p in v.spare;
    PushView(h, d, p);
  }

  lemma {:induction false} PushOther(h: Heap, d: nat, p: nat, b: nat)
    requires d < |h.free| && Distinct(h.free[d]) && p !in h.free[d] && PageOf(p) in h.arenas && b in h.arenas
      && b != PageOf(p)
    ensures SameArena(h, PushBlock(h, d, p), b)
  {
    PushFront(h.free[d], p, b);
    assert LiveIn(h.live - {p}, b) == LiveIn(h.live, b);
  }

  lemma {:induction false} PushArenas(h: Heap, d: nat, p: nat)
    requires InUse(h, d, p) && ArenasOk(h, None)
    ensures ArenasOk(PushBlock(h, d, p), Some(PageOf(p))) && p !in h.free[d]
  {
    var h' := PushBlock(h, d, p);
    PushItself(h, d, p);
    forall b | b in h.arenas && b != PageOf(p) ensures SameArena(h, h', b) { PushOther(h, d, p, b); }
    OneArena(h, h', None, Some(PageOf(p)), PageOf(p));
  }

  lemma {:induction false} PushLists(h: Heap, d: nat, p: nat)
    requires InUse(h, d, p) && ListsOk(h) && p !in h.free[d]
    ensures ListsOk(PushBlock(h, d, p))
  {
    var h' := PushBlock(h, d, p);
    PushFront(h.free[d], p, 0);
    forall e | 0 <= e < DESC_CNT ensures ListOk(h', e) { assert ListOk(h, e); }
  }

  lemma {:induction false} PushOk(h: Heap, d: nat, p: nat)
    requires HeapOk(h, None) && p in h.live && PageOf(p) in h.arenas && h.arenas[PageOf(p)].desc == Some(d)
    ensures d < DESC_CNT && HeapOk(PushBlock(h, d, p), Some(PageOf(p)))
  {
    assert ArenaOk(h, PageOf(p)) && ListOk(h, d);
    PushArenas(h, d, p);
    PushLists(h, d, p);
    PushSpace(h, d, p);
  }

  lemma {:induction false} PushSpace(h: Heap, d: nat, p: nat)
    requires d < |h.free| && SpaceOk(h) && PageOf(p) in h.arenas && h.arenas[PageOf(p)].desc.Some?
    ensures SpaceOk(PushBlock(h, d, p))
  {
  }

  // ----- an arena given back

  /** All blocks of arena a are on the list. */
  ghost predicate Listed(list: seq<nat>, a: nat, d: nat) { forall b | b in AllBlocks(a, d) :: b in list }

  lemma {:induction false} RemoveStep(list: seq<nat>, a: nat, d: nat, i: nat)
    requires Distinct(list) && i < PerArena(d) && Listed(list, a, d)
    ensures BlockAt(a, d, i) in Keep(list, Blocks(a, d, i))
    ensures Without(Keep(list, Blocks(a, d, i)), BlockAt(a, d, i)) == Keep(list, Blocks(a, d, i + 1))
  {
    NextBlock(a, d, i);
    BlockIsIn(a, d, PerArena(d), i);
    WithoutKeep(list, Blocks(a, d, i), BlockAt(a, d, i));
  }

  ghost function DropArena(h: Heap, d: nat, a: nat): Heap
    requires d < |h.free|
  {
    h.(free := h.free[d := Keep(h.free[d], AllBlocks(a, d))], arenas := h.arenas - {a})
  }

  lemma {:induction false} DropOther(h: Heap, d: nat, a: nat, b: nat)
    requires |h.free| == DESC_CNT && d < DESC_CNT && PageAligned(a) && b in h.arenas && b != a
    ensures SameArena(h, DropArena(h, d, a), b)
  {
    KeepIn(h.free[d], AllBlocks(a, d));
    NewBlocksIn(a, d);
    assert FreeIn(Keep(h.free[d], AllBlocks(a, d)), b) == FreeIn(h.free[d], b);
  }

  lemma {:induction false} DropLists(h: Heap, d: nat, a: nat)
    requires ListsOk(h) && d < DESC_CNT && a in h.arenas && h.arenas[a].desc == Some(d)
      && FreeIn(h.free[d], a) <= AllBlocks(a, d)
    ensures ListsOk(DropArena(h, d, a))
  {
    var h' := DropArena(h, d, a);
    KeepIn(h.free[d], AllBlocks(a, d));
    assert ListOk(h, d);
    KeepDistinct(h.free[d], AllBlocks(a, d));
    forall e | 0 <= e < DESC_CNT ensures ListOk(h', e) {
      assert ListOk(h, e);
      forall b | b in h'.free[e] ensures PageOf(b) in h'.arenas {
        assert b in FreeIn(h.free[e], PageOf(b));
      }
    }
  }

  lemma {:induction false} DropSpace(h: Heap, d: nat, a: nat)
    requires d < |h.free| && SpaceOk(h) && LiveIn(h.live, a) == map[]
    ensures SpaceOk(DropArena(h, d, a))
  {
    forall p | p in h.live ensures PageOf(p) != a { assert p !in LiveIn(h.live, a); }
  }

  lemma {:induction false} DropOk(h: Heap, d: nat, a: nat)
    requires HeapOk(h, Some(a)) && a in h.arenas && h.arenas[a].desc == Some(d) && LiveIn(h.live, a) == map[]
    ensures d < DESC_CNT && HeapOk(DropArena(h, d, a), None)
  {
    assert ArenaOk(h, a);
    forall b | b in h.arenas && b != a ensures SameArena(h, DropArena(h, d, a), b) { DropOther(h, d, a, b); }
    OneArena(h, DropArena(h, d, a), Some(a), None, a);
    DropLists(h, d, a);
    DropSpace(h, d, a);
  }

  // ----- big blocks

  function NewBig(h: Heap, page: nat, n: nat, size: nat): Heap {
    h.(arenas := h.arenas[page := Arena(None, n)], live := h.live[page + HEADER := size])
  }

  function DropBig(h: Heap, a: nat): Heap {
    h.(arenas := h.arenas - {a}, live := h.live - {a + HEADER})
  }

  lemma {:induction false} NewBigArenas(h: Heap, page: nat, n: nat, size: nat)
    requires ArenasOk(h, None) && PageAligned(page) && page !in h.arenas && LiveIn(h.live, page) == map[]
      && BigOk(size, n)
    ensures ArenasOk(NewBig(h, page, n, size), None)
  {
    var h' := NewBig(h, page, n, size);
    NewBigItself(h, page, n, size);
    forall b | b in h.arenas ensures SameArena(h, h', b) { NewBigOther(h, page, n, size, b); }
    OneArena(h, h', None, None, page);
  }

  lemma {:induction false} NewBigItself(h: Heap, page: nat, n: nat, size: nat)
    requires PageAligned(page) && LiveIn(h.live, page) == map[] && BigOk(size, n)
    ensures ArenaOk(NewBig(h, page, n, size), page) && ViewOf(NewBig(h, page, n, size), page).used.Keys != {}
  {
    InPage(page, HEADER);
    var u := LiveIn(NewBig(h, page, n, size).live, page);
    assert u == map[page + HEADER := size];
    assert page + HEADER in u;
  }

  lemma {:induction false} NewBigOther(h: Heap, page: nat, n: nat, size: nat, b: nat)
    requires PageAligned(page) && b in h.arenas && b != page
    ensures SameArena(h, NewBig(h, page, n, size), b)
  {
    InPage(page, HEADER);
    assert LiveIn(NewBig(h, page, n, size).live, b) == LiveIn(h.live, b);
  }

  lemma {:induction false} NewBigSpace(h: Heap, page: nat, n: nat, size: nat)
    requires SpaceOk(h) && FreshRun(h, page, n)
    ensures SpaceOk(NewBig(h, page, n, size))
  {
    InPage(page, HEADER);
  }

  lemma {:induction false} NewBigOk(h: Heap, page: nat, n: nat, size: nat)
    requires HeapOk(h, None) && FreshRun(h, page, n) && BigOk(size, n)
    ensures HeapOk(NewBig(h, page, n, size), None)
  {
    NothingLive(h, page);
    NewBigArenas(h, page, n, size);
    NewBigSpace(h, page, n, size);
    NewBigLists(h, page, n, size);
  }

  lemma {:induction false} NewBigLists(h: Heap, page: nat, n: nat, size: nat)
    requires ListsOk(h) && page !in h.arenas
    ensures ListsOk(NewBig(h, page, n, size))
  {
    var h' := NewBig(h, page, n, size);
    forall e | 0 <= e < DESC_CNT ensures ListOk(h', e) { assert ListOk(h, e); }
  }

  lemma {:induction false} NothingLive(h: Heap, page: nat)
    requires SpaceOk(h) && page !in h.arenas
    ensures LiveIn(h.live, page) == map[]
  {
  }

  lemma {:induction false} DropBigArenas(h: Heap, a: nat)
    requires ArenasOk(h, None) && PageAligned(a)
    ensures ArenasOk(DropBig(h, a), None)
  {
    InPage(a, HEADER);
    var h' := DropBig(h, a);
    forall b | b in h.arenas && b != a ensures SameArena(h, h', b) { assert LiveIn(h'.live, b) == LiveIn(h.live, b); }
    OneArena(h, h', None, None, a);
  }

  lemma {:induction false} DropBigOk(h: Heap, a: nat)
    requires HeapOk(h, None) && a in h.arenas && h.arenas[a].desc == None
    ensures HeapOk(DropBig(h, a), None)
  {
    assert ArenaOk(h, a);
    DropBigArenas(h, a);
    DropBigLists(h, a);
    DropBigSpace(h, a);
  }

  lemma {:induction false} DropBigLists(h: Heap, a: nat)
    requires ListsOk(h) && a in h.arenas && h.arenas[a].desc == None
    ensures ListsOk(DropBig(h, a))
  {
    var h' := DropBig(h, a);
    forall e | 0 <= e < DESC_CNT ensures ListOk(h', e) { assert ListOk(h, e); }
  }

  lemma {:induction false} DropBigSpace(h: Heap, a: nat)
    requires SpaceOk(h) && LiveIn(h.live, a).Keys == {a + HEADER}
    ensures SpaceOk(DropBig(h, a))
  {
    var h' := DropBig(h, a);
    forall p | p in h'.live ensures PageOf(p) in h'.arenas {
      assert p in LiveIn(h.live, PageOf(p));
    }
  }

  // ----- what the invariant is for

  /** block_size: the bytes that belong to a block */
  ghost function Capacity(h: Heap, p: nat): nat
    requires PageOf(p) in h.arenas
  {
    match h.arenas[PageOf(p)].desc
    case Some(d) => Size(d)
    case None => if h.arenas[PageOf(p)].freeCnt == 0 then 0 else h.arenas[PageOf(p)].freeCnt * PGSIZE - HEADER
  }

  lemma {:induction false} SmallEnough(d: nat, size: nat)
    requires d < DESC_CNT && size <= Size(d)
    ensures !Wraps(size)
  {
    SizeMonotone(d);
    assert Size(6) == 1024;
  }

  /** A block in use lies behind its arena's header and within the arena's pages; it is as large as was asked for,
      exactly if the request did not make the number of pages wrap around. */
  lemma {:induction false} LiveInside(h: Heap, p: nat)
    requires HeapOk(h, None) && p in h.live
    ensures PageOf(p) in h.arenas && (h.live[p] <= Capacity(h, p) <==> !Wraps(h.live[p]))
    ensures PageOf(p) + HEADER <= p && p + Capacity(h, p) <= PageOf(p) + PageCount(h.arenas[PageOf(p)]) * PGSIZE
  {
    var a := PageOf(p);
    assert ArenaOk(h, a);
    assert p in LiveIn(h.live, a);
    if h.arenas[a].desc.Some? {
      var d := h.arenas[a].desc.value;
      var i := BlockIsAt(a, d, PerArena(d), p);
      BlockInPage(a, d, i);
      SmallEnough(d, h.live[p]);
    } else {
      BigEnoughIff(h.live[p]);
    }
  }

  /** What block_to_arena asserts of a block: it starts at a block's place in an arena, behind the header. */
  predicate Aligned(arenas: map<nat, Arena>, p: nat) {
    && PageOf(p) in arenas && p % PGSIZE >= HEADER
    && match arenas[PageOf(p)].desc
       case Some(d) => (p % PGSIZE - HEADER) % Size(d) == 0
       case None => p % PGSIZE == HEADER
  }

  lemma {:induction false} LiveAligned(h: Heap, p: nat)
    requires HeapOk(h, None) && p in h.live
    ensures Aligned(h.arenas, p)
  {
    var a := PageOf(p);
    assert ArenaOk(h, a);
    assert p in LiveIn(h.live, a);
    if h.arenas[a].desc.Some? { AlignedBlock(a, h.arenas[a].desc.value, p); } else { InPage(a, HEADER); }
  }

  lemma {:induction false} FreeInArena(h: Heap, young: Option<nat>, d: nat, b: nat)
    requires HeapOk(h, young) && d < DESC_CNT && b in h.free[d]
    ensures var a := PageOf(b);
      a in h.arenas && h.arenas[a].desc == Some(d) && PageAligned(a) && b in AllBlocks(a, d) && b !in h.live
  {
    assert ListOk(h, d);
    var a := PageOf(b);
    var v := ViewOf(h, a);
    assert ArenaOk(h, a);
    assert b in FreeIn(h.free[d], a);
    assert b in v.spare && (b in h.live ==> b in v.used);
  }

  lemma {:induction false} FreeAligned(h: Heap, young: Option<nat>, d: nat, b: nat)
    requires HeapOk(h, young) && d < DESC_CNT && b in h.free[d]
    ensures Aligned(h.arenas, b)
  {
    FreeInArena(h, young, d, b);
    AlignedBlock(PageOf(b), d, b);
  }

  lemma {:induction false} SameArenaApart(h: Heap, p: nat, q: nat)
    requires HeapOk(h, None) && p in h.live && q in h.live && p != q && PageOf(p) == PageOf(q)
    ensures PageOf(p) in h.arenas && h.arenas[PageOf(p)].desc.Some?
    ensures p + Capacity(h, p) <= q || q + Capacity(h, q) <= p
  {
    var a := PageOf(p);
    assert ArenaOk(h, a);
    assert p in LiveIn(h.live, a) && q in LiveIn(h.live, a);
    TwoBlocks(a, h.arenas[a].desc.value, p, q);
  }

  /** Blocks in use have no byte in common. */
  lemma {:induction false} LiveApart(h: Heap, p: nat, q: nat)
    requires HeapOk(h, None) && p in h.live && q in h.live && p != q
    ensures PageOf(p) in h.arenas && PageOf(q) in h.arenas
    ensures p + Capacity(h, p) <= q || q + Capacity(h, q) <= p
  {
    LiveInside(h, p);
    LiveInside(h, q);
    if PageOf(p) == PageOf(q) {
      SameArenaApart(h, p, q);
    }
  }

  lemma {:induction false} SameArenaFree(h: Heap, p: nat, d: nat, b: nat)
    requires HeapOk(h, None) && p in h.live && d < DESC_CNT && b in h.free[d] && PageOf(p) == PageOf(b)
    ensures PageOf(p) in h.arenas && (p + Capacity(h, p) <= b || b + Size(d) <= p)
  {
    var a := PageOf(p);
    FreeInArena(h, None, d, b);
    assert ArenaOk(h, a);
    assert p in LiveIn(h.live, a);
    TwoBlocks(a, d, p, b);
  }

  /** A block in use has no byte in common with a free block, which holds the free list's links. */
  lemma {:induction false} LiveClearOfFree(h: Heap, p: nat, d: nat, b: nat)
    requires HeapOk(h, None) && p in h.live && d < DESC_CNT && b in h.free[d]
    ensures PageOf(p) in h.arenas && (p + Capacity(h, p) <= b || b + Size(d) <= p)
  {
    LiveInside(h, p);
    if PageOf(p) == PageOf(b) {
      SameArenaFree(h, p, d, b);
    } else {
      FreeInArena(h, None, d, b);
      var i := BlockIsAt(PageOf(b), d, PerArena(d), b);
      BlockInPage(PageOf(b), d, i);
    }
  }

  /** A block in use overlaps no arena's header, its own or another's. */
  lemma {:induction false} LiveClearOfHeaders(h: Heap, p: nat, a: nat)
    requires HeapOk(h, None) && p in h.live && a in h.arenas
    ensures PageOf(p) in h.arenas && (a + HEADER <= p || p + Capacity(h, p) <= a)
  {
    LiveInside(h, p);
    assert ArenaOk(h, a);
    assert LiveIn(h.live, a) != map[];
    if a != PageOf(p) && !(p + Capacity(h, p) <= a) {
      assert PageCount(h.arenas[a]) >= 1;
    }
  }

  /** A page run is held exactly as long as one of its blocks is in use. */
  lemma {:induction false} HeldWhileLive(h: Heap, a: nat)
    requires HeapOk(h, None)
    ensures a in h.arenas <==> exists p :: p in h.live && PageOf(p) == a
  {
    if a in h.arenas {
      assert LiveIn(h.live, a).Keys != {} by { assert ArenaOk(h, a); }
      var p :| p in LiveIn(h.live, a).Keys;
    }
  }

  // ----- malloc and free

  /** The number of pages malloc asks the page allocator for, when it asks. */
  function PagesFor(size: nat): nat {
    if size <= Size(DESC_CNT - 1) then 1 else BigPages(size)
  }

  /** d is the smallest descriptor whose blocks are large enough. */
  ghost predicate Fitting(d: nat, size: nat) {
    d < DESC_CNT && size <= Size(d) && forall e :: 0 <= e < d ==> Size(e) < size
  }

  /** Arena x is one for blocks of the size given. */
  ghost predicate IsFor(x: Arena, size: nat) {
    match x.desc
    case Some(d) => Fitting(d, size)
    case None => x.freeCnt == BigPages(size) && forall e :: 0 <= e < DESC_CNT ==> Size(e) < size
  }

  /** There is no free block of the size that malloc would give out. */
  ghost predicate NoneFree(free: seq<seq<nat>>, size: nat) {
    forall d: nat | Fitting(d, size) && d < |free| :: free[d] == []
  }

  lemma {:induction false} SmallFits(free: seq<seq<nat>>, size: nat, d: nat)
    requires Fitting(d, size) && d < |free|
    ensures NoneFree(free, size) <==> free[d] == []
  {
    forall e: nat | Fitting(e, size) ensures e == d {}
  }

  lemma {:induction false} BigFits(free: seq<seq<nat>>, size: nat)
    requires forall e :: 0 <= e < DESC_CNT ==> Size(e) < size
    ensures NoneFree(free, size)
  {
  }

  class Allocator {
    const descs: seq<Desc>
    var free: seq<seq<nat>>
    var arenas: map<nat, Arena>
    ghost var live: map<nat, nat>

    ghost function State(): Heap reads this { Heap(free, arenas, live) }

    ghost predicate Valid() reads this {
      && |descs| == DESC_CNT && (forall d :: 0 <= d < DESC_CNT ==> descs[d] == Desc(Size(d), PerArena(d)))
      && HeapOk(State(), None)
    }

    constructor ()
      ensures Valid() && live == map[] && arenas == map[]
    {
      var ds := Init();
      descs := ds;
      free := seq(DESC_CNT, _ => []);
      arenas := map[];
      live := map[];
    }

    /** The smallest descriptor whose blocks are large enough */
    method FindDesc(size: nat) returns (d: nat)
      requires Valid()
      ensures if d < DESC_CNT then Fitting(d, size) && PagesFor(size) == 1
              else d == DESC_CNT && PagesFor(size) == BigPages(size) && forall e :: 0 <= e < DESC_CNT ==> Size(e) < size
    {
      d := 0;
      while d < |descs| && descs[d].blockSize < size
        invariant d <= DESC_CNT && forall e :: 0 <= e < d ==> Size(e) < size
      {
        d := d + 1;
      }
      if d < DESC_CNT { SizeMonotone(d); } else { assert Size(DESC_CNT - 1) < size; }
    }

    /** The blocks of the new arena a, in order, to the end of descriptor d's free list */
    method PushNewBlocks(d: nat, a: nat)
      requires d < |descs| && d < |free| && descs[d] == Desc(Size(d), PerArena(d))
      modifies this`free
      ensures free == old(free)[d := old(free[d]) + NewBlocks(a, d, PerArena(d))]
    {
      var list, i := free[d], 0;
      while i < descs[d].blocksPerArena
        invariant i <= PerArena(d) && list == old(free[d]) + NewBlocks(a, d, i)
      {
        assert NewBlocks(a, d, i + 1) == NewBlocks(a, d, i) + [BlockAt(a, d, i)];
        list := list + [a + HEADER + i * descs[d].blockSize];
        i := i + 1;
      }
      free := free[d := list];
    }

    method StartArena(d: nat, page: nat)
      requires d < |descs| && d < |free| && descs[d] == Desc(Size(d), PerArena(d))
      modifies this
      ensures State() == NewArena(old(State()), d, page)
    {
      arenas := arenas[page := Arena(Some(d), descs[d].blocksPerArena)];
      PushNewBlocks(d, page);
    }

    method PopFirst(d: nat, size: nat) returns (b: nat)
      requires d < |free| && free[d] != [] && Aligned(arenas, free[d][0]) && arenas[PageOf(free[d][0])].freeCnt > 0
      modifies this
      ensures b == old(free[d][0]) && State() == PopBlock(old(State()), d, size)
    {
      b := free[d][0];
      free := free[d := free[d][1..]];
      var a := BlockToArena(b);
      arenas := arenas[a := arenas[a].(freeCnt := arenas[a].freeCnt - 1)];
      live := live[b := size];
    }

    /** A new arena if descriptor d has no free block, and then its first free block */
    method MallocSmall(d: nat, size: nat, page: Option<nat>) returns (p: Option<nat>)
      requires d < |descs| && d < |free| && descs[d] == Desc(Size(d), PerArena(d))
        && (free[d] != [] || page.Some? ==> Stocked(State(), d, page))
      modifies this
      ensures p.None? <==> old(free[d]) == [] && page.None?
      ensures p.None? ==> State() == old(State())
      ensures p.Some? ==>
        State() == PopBlock(Stock(old(State()), d, page), d, size) && p.value == Stock(old(State()), d, page).free[d][0]
    {
      if free[d] == [] {
        if page.None? { return None; }
        StartArena(d, page.value);
      }
      var b := PopFirst(d, size);
      return Some(b);
    }

    method MallocBig(size: nat, page: Option<nat>) returns (p: Option<nat>)
      requires Valid() && size < SIZE_T
      requires page.Some? ==> BigPages(size) > 0 && FreshRun(State(), page.value, BigPages(size))
      modifies this
      ensures Valid()
      ensures p.None? <==> page.None?
      ensures p.None? ==> State() == old(State())
      ensures p.Some? ==> p.value == page.value + HEADER && PageOf(p.value) == page.value && p.value !in old(live)
      ensures p.Some? ==> live == old(live)[p.value := size] && arenas.Keys == old(arenas).Keys + {page.value}
      ensures p.Some? ==> arenas[page.value] == Arena(None, BigPages(size))
    {
      if page.None? { return None; }
      var pageCnt := (size + HEADER + PGSIZE - 1) % SIZE_T / PGSIZE;
      NewBigOk(State(), page.value, pageCnt, size);
      InPage(page.value, HEADER);
      arenas := arenas[page.value := Arena(None, pageCnt)];
      live := live[page.value + HEADER := size];
      return Some(page.value + HEADER);
    }

    /** page is the page allocator's answer should malloc ask it for PagesFor(size) pages; asked for none it gives
        none. */
    method Malloc(size: nat, page: Option<nat>) returns (p: Option<nat>)
      requires Valid() && size < SIZE_T
      requires page.Some? ==> PagesFor(size) > 0 && FreshRun(State(), page.value, PagesFor(size))
      modifies this
      ensures Valid()
      ensures p.None? <==> size == 0 || (page.None? && NoneFree(old(free), size))
      ensures p.None? ==> State() == old(State())
      ensures p.Some? ==> p.value !in old(live) && live == old(live)[p.value := size]
      // a new page is used only if there is no free block of the right size
      ensures p.Some? && PageOf(p.value) !in old(arenas) ==> page == Some(PageOf(p.value)) && NoneFree(old(free), size)
      ensures p.Some? ==> arenas.Keys == old(arenas).Keys + {PageOf(p.value)}
      // the block is one of the smallest that are large enough, or as many pages as it needs
      ensures p.Some? ==> IsFor(arenas[PageOf(p.value)], size)
    {
      if size == 0 { return None; }
      var d := FindDesc(size);
      if d == |descs| {
        BigFits(free, size);
        p := MallocBig(size, page);
        return;
      }
      SmallFits(free, size, d);
      if free[d] != [] || page.Some? { StockOk(State(), d, size, page); }
      p := MallocSmall(d, size, page);
    }
  
    /** block_to_arena, whose assertions are its precondition */
    method BlockToArena(p: nat) returns (a: nat)
      requires Aligned(arenas, p)
      ensures a == PageOf(p) && a in arenas && PageAligned(a) && a + HEADER <= p < a + PGSIZE
    {
      a := p - p % PGSIZE;
    }

    /** The loop of list_remove over all the blocks of arena a */
    method RemoveBlocks(d: nat, a: nat)
      requires d < |descs| && d < |free| && descs[d] == Desc(Size(d), PerArena(d)) && Distinct(free[d])
      requires Listed(free[d], a, d)
      modifies this`free
      ensures free == old(free)[d := Keep(old(free[d]), AllBlocks(a, d))]
    {
      var list := RemoveFrom(free[d], d, a);
      free := free[d := list];
    }

    method RemoveFrom(list0: seq<nat>, d: nat, a: nat) returns (list: seq<nat>)
      requires d < |descs| && descs[d] == Desc(Size(d), PerArena(d)) && Distinct(list0) && Listed(list0, a, d)
      ensures list == Keep(list0, AllBlocks(a, d))
    {
      list := list0;
      var i := 0;
      KeepNothing(list0);
      while i < descs[d].blocksPerArena
        invariant i <= PerArena(d) && list == Keep(list0, Blocks(a, d, i))
      {
        var b := a + HEADER + i * descs[d].blockSize;
        RemoveStep(list0, a, d, i);
        assert b in list;
        list := Without(list, b);
        i := i + 1;
      }
    }

    method PushFirst(d: nat, p: nat)
      requires d < |free| && PageOf(p) in arenas
      modifies this
      ensures State() == PushBlock(old(State()), d, p)
    {
      free := free[d := [p] + free[d]];
      arenas := arenas[PageOf(p) := arenas[PageOf(p)].(freeCnt := arenas[PageOf(p)].freeCnt + 1)];
      live := live - {p};
    }

    method GiveUpArena(d: nat, a: nat)
      requires d < |descs| && d < |free| && descs[d] == Desc(Size(d), PerArena(d)) && Distinct(free[d])
      requires Listed(free[d], a, d)
      modifies this
      ensures State() == DropArena(old(State()), d, a)
    {
      RemoveBlocks(d, a);
      arenas := arenas - {a};
    }

    /** The block goes to the front of its free list, and the arena if it is full then. */
    method FreeSmall(d: nat, p: nat) returns (returned: bool)
      requires d < |descs| && d < |free| && descs[d] == Desc(Size(d), PerArena(d)) && PageOf(p) in arenas
      requires Removable(PushBlock(State(), d, p), d, PageOf(p))
      modifies this
      ensures returned <==> PushBlock(old(State()), d, p).arenas[PageOf(p)].freeCnt == PerArena(d)
      ensures State() == FreedHeap(old(State()), d, p)
    {
      var a := PageOf(p);
      PushFirst(d, p);
      returned := arenas[a].freeCnt >= descs[d].blocksPerArena;
      if returned {
        assert arenas[a].freeCnt == descs[d].blocksPerArena;
        GiveUpArena(d, a);
      }
    }

    method FreeBlock(d: nat, p: nat) returns (returned: bool)
      requires Valid() && p in live && PageOf(p) in arenas && arenas[PageOf(p)].desc == Some(d)
      modifies this
      ensures TakenBack(old(State()), State(), p, returned)
    {
      FreePlan(State(), d, p);
      returned := FreeSmall(d, p);
    }

    /** The pages given back to the page allocator, if any */
    method Free(p: Option<nat>) returns (pages: Option<(nat, nat)>)
      requires Valid() && (p.Some? ==> p.value in live)
      modifies this
      ensures Valid()
      ensures p.None? ==> State() == old(State()) && pages == None
      ensures p.Some? ==> live == old(live) - {p.value}
      // exactly when the last block in use of an arena is freed are its pages given back, all of them
      ensures p.Some? ==> (pages.Some? <==> LiveIn(live, PageOf(p.value)) == map[])
      ensures p.Some? && pages.Some? ==>
        && PageOf(p.value) in old(arenas) && pages.value == (PageOf(p.value), PageCount(old(arenas)[PageOf(p.value)]))
        && arenas.Keys == old(arenas).Keys - {PageOf(p.value)}
      ensures pages.None? ==> arenas.Keys == old(arenas).Keys
    {
      if p.None? { return None; }
      LiveAligned(State(), p.value);
      var a := BlockToArena(p.value);
      if arenas[a].desc.Some? {
        var returned := FreeBlock(arenas[a].desc.value, p.value);
        return if returned then Some((a, 1)) else None;
      } else {
        var n := FreeBig(a, p.value);
        return Some((a, n));
      }
    }

    method FreeBig(a: nat, p: nat) returns (n: nat)
      requires Valid() && p in live && a == PageOf(p) && a in arenas && arenas[a].desc == None
      modifies this
      ensures Valid() && live == old(live) - {p} && LiveIn(live, a) == map[]
      ensures n == PageCount(old(arenas)[a]) && arenas.Keys == old(arenas).Keys - {a}
    {
      n := arenas[a].freeCnt;
      BigBlock(State(), a, p);
      DropBigOk(State(), a);
      ForgetBig(a);
    }

    method ForgetBig(a: nat)
      modifies this
      ensures State() == DropBig(old(State()), a)
    {
      arenas := arenas - {a};
      live := live - {a + HEADER};
    }
  }

  lemma {:induction false} BigBlock(h: Heap, a: nat, p: nat)
    requires HeapOk(h, None) && a in h.arenas && h.arenas[a].desc == None && p in h.live && PageOf(p) == a
    ensures p == a + HEADER && LiveIn(h.live - {p}, a) == map[]
  {
    assert ArenaOk(h, a);
    assert p in LiveIn(h.live, a);
    forall q | q in h.live && PageOf(q) == a ensures q == p { assert q in LiveIn(h.live, a); }
  }

  lemma {:induction false} FullUnused(h: Heap, d: nat, a: nat)
    requires HeapOk(h, Some(a)) && a in h.arenas && h.arenas[a].desc == Some(d)
    ensures d < DESC_CNT && h.arenas[a].freeCnt <= PerArena(d) && Distinct(h.free[d])
    ensures h.arenas[a].freeCnt == PerArena(d) <==> LiveIn(h.live, a) == map[]
    ensures LiveIn(h.live, a) == map[] ==> Listed(h.free[d], a, d)
  {
    assert ArenaOk(h, a) && ListOk(h, d);
    FullWhenUnused(a, ViewOf(h, a), d);
    assert LiveIn(h.live, a) == map[] ==> forall b | b in AllBlocks(a, d) :: b in FreeIn(h.free[d], a);
  }

  /** The heap when descriptor d has a free block, from a new arena if need be */
  ghost function Stock(h: Heap, d: nat, page: Option<nat>): Heap
    requires d < |h.free|
  {
    if h.free[d] == [] && page.Some? then NewArena(h, d, page.value) else h
  }

  ghost predicate Stocked(h: Heap, d: nat, page: Option<nat>)
    requires d < |h.free|
  {
    var g := Stock(h, d, page);
    d < |g.free| && g.free[d] != [] && Aligned(g.arenas, g.free[d][0]) && g.arenas[PageOf(g.free[d][0])].freeCnt > 0
  }

  lemma {:induction false} StockIsOk(h: Heap, d: nat, page: Option<nat>)
    requires HeapOk(h, None) && d < DESC_CNT && (page.Some? ==> FreshRun(h, page.value, 1))
      && (h.free[d] != [] || page.Some?)
    ensures var g, young := Stock(h, d, page), if h.free[d] == [] then page else None;
      && HeapOk(g, young) && g.free[d] != [] && (young.Some? ==> PageOf(g.free[d][0]) == young.value)
      && g.live == h.live && g.arenas.Keys == h.arenas.Keys + (if h.free[d] == [] then {page.value} else {})
  {
    if h.free[d] == [] {
      NewArenaOk(h, d, page.value);
      NewArenaFirst(h, d, page.value);
    }
  }

  /** Block b is in an arena of descriptor d. */
  ghost predicate BlockOf(h: Heap, b: nat, d: nat) { PageOf(b) in h.arenas && h.arenas[PageOf(b)].desc == Some(d) }

  /** What malloc leaves after giving out a small block */
  ghost predicate GivenOut(h: Heap, h': Heap, d: nat, page: Option<nat>, b: nat, size: nat)
    requires d < |h.free|
  {
    && HeapOk(h', None) && b !in h.live && h'.live == h.live[b := size] && BlockOf(h', b, d)
    && h'.arenas.Keys == h.arenas.Keys + {PageOf(b)}
    && (if h.free[d] == [] then page == Some(PageOf(b)) else PageOf(b) in h.arenas && b == h.free[d][0])
  }

  lemma {:induction false} StockReady(h: Heap, d: nat, page: Option<nat>)
    requires HeapOk(h, None) && d < DESC_CNT && (page.Some? ==> FreshRun(h, page.value, 1))
      && (h.free[d] != [] || page.Some?)
    ensures Stocked(h, d, page) && Stock(h, d, page).free[d][0] !in h.live
  {
    StockIsOk(h, d, page);
    PopReady(Stock(h, d, page), if h.free[d] == [] then page else None, d);
    FreeAligned(Stock(h, d, page), if h.free[d] == [] then page else None, d, Stock(h, d, page).free[d][0]);
  }

  lemma {:induction false} StockHeap(h: Heap, d: nat, size: nat, page: Option<nat>)
    requires HeapOk(h, None) && d < DESC_CNT && size <= Size(d) && (page.Some? ==> FreshRun(h, page.value, 1))
      && Stocked(h, d, page)
    ensures HeapOk(PopBlock(Stock(h, d, page), d, size), None)
    ensures BlockOf(PopBlock(Stock(h, d, page), d, size), Stock(h, d, page).free[d][0], d)
  {
    StockIsOk(h, d, page);
    PopOk(Stock(h, d, page), if h.free[d] == [] then page else None, d, size);
    FreeInArena(Stock(h, d, page), if h.free[d] == [] then page else None, d, Stock(h, d, page).free[d][0]);
  }

  lemma {:induction false} StockFacts(h: Heap, d: nat, size: nat, page: Option<nat>)
    requires d < |h.free| && d < DESC_CNT && Stocked(h, d, page) && (page.Some? ==> PageAligned(page.value))
    ensures var h', b := PopBlock(Stock(h, d, page), d, size), Stock(h, d, page).free[d][0];
      && h'.live == h.live[b := size] && h'.arenas.Keys == h.arenas.Keys + {PageOf(b)}
      && (if h.free[d] == [] then page == Some(PageOf(b)) else PageOf(b) in h.arenas && b == h.free[d][0])
  {
    if h.free[d] == [] { NewArenaFirst(h, d, page.value); }
  }

  lemma {:induction false} StockOk(h: Heap, d: nat, size: nat, page: Option<nat>)
    requires HeapOk(h, None) && d < DESC_CNT && size <= Size(d) && (page.Some? ==> FreshRun(h, page.value, 1))
      && (h.free[d] != [] || page.Some?)
    ensures Stocked(h, d, page)
      && GivenOut(h, PopBlock(Stock(h, d, page), d, size), d, page, Stock(h, d, page).free[d][0], size)
  {
    StockReady(h, d, page);
    StockHeap(h, d, size, page);
    StockFacts(h, d, size, page);
  }

  /** The heap without an arena that has no block in use */
  ghost function Settled(g: Heap, d: nat, a: nat): Heap
    requires d < |g.free| && a in g.arenas
  {
    if g.arenas[a].freeCnt == PerArena(d) then DropArena(g, d, a) else g
  }

  /** What free leaves after taking back a small block */
  ghost function FreedHeap(h: Heap, d: nat, p: nat): Heap
    requires d < |h.free| && PageOf(p) in h.arenas
  {
    Settled(PushBlock(h, d, p), d, PageOf(p))
  }

  ghost predicate TakenBack(h: Heap, h': Heap, p: nat, returned: bool) {
    && HeapOk(h', None) && h'.live == h.live - {p} && (returned <==> LiveIn(h'.live, PageOf(p)) == map[])
    && h'.arenas.Keys == if returned then h.arenas.Keys - {PageOf(p)} else h.arenas.Keys
  }

  /** The arena's blocks are all on the list when the arena is full. */
  ghost predicate Removable(g: Heap, d: nat, a: nat)
    requires d < |g.free| && a in g.arenas
  {
    && g.arenas[a].freeCnt <= PerArena(d)
    && (g.arenas[a].freeCnt == PerArena(d) ==> Distinct(g.free[d]) && Listed(g.free[d], a, d))
  }

  lemma {:induction false} SettledOk(g: Heap, d: nat, a: nat)
    requires HeapOk(g, Some(a)) && a in g.arenas && g.arenas[a].desc == Some(d)
    ensures d < DESC_CNT && Removable(g, d, a) && HeapOk(Settled(g, d, a), None)
    ensures g.arenas[a].freeCnt == PerArena(d) <==> LiveIn(g.live, a) == map[]
  {
    FullUnused(g, d, a);
    if g.arenas[a].freeCnt == PerArena(d) { DropOk(g, d, a); } else { NotYoung(g, a); }
  }

  lemma {:induction false} FreedFacts(h: Heap, d: nat, p: nat)
    requires d < |h.free| && PageOf(p) in h.arenas && h.arenas[PageOf(p)].desc == Some(d)
    ensures PushBlock(h, d, p).arenas[PageOf(p)].desc == Some(d)
    ensures PushBlock(h, d, p).live == h.live - {p} && FreedHeap(h, d, p).live == h.live - {p}
    ensures FreedHeap(h, d, p).arenas.Keys
      == if PushBlock(h, d, p).arenas[PageOf(p)].freeCnt == PerArena(d) then h.arenas.Keys - {PageOf(p)}
        else h.arenas.Keys
  {
    assert PushBlock(h, d, p).arenas.Keys == h.arenas.Keys;
  }

  lemma {:induction false} FreePlan(h: Heap, d: nat, p: nat)
    requires HeapOk(h, None) && p in h.live && PageOf(p) in h.arenas && h.arenas[PageOf(p)].desc == Some(d)
    ensures d < DESC_CNT && Removable(PushBlock(h, d, p), d, PageOf(p))
    ensures TakenBack(h, FreedHeap(h, d, p), p, PushBlock(h, d, p).arenas[PageOf(p)].freeCnt == PerArena(d))
  {
    PushOk(h, d, p);
    FreedFacts(h, d, p);
    SettledOk(PushBlock(h, d, p), d, PageOf(p));
  }

  lemma {:induction false} NotYoung(h: Heap, a: nat)
    requires HeapOk(h, Some(a)) && LiveIn(h.live, a) != map[]
    ensures HeapOk(h, None)
  {
    assert LiveIn(h.live, a).Keys != {};
  }
}
