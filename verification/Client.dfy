/** A client that allocates, writes and releases blocks through the closure interface, in any
    order. Whatever it does, the heap serves it like a store of separate blocks: every word it
    has written stays until it writes it again or releases the block, both addresses of a block
    stay and lead back to it until it is released, and nothing is lost. */
module Client {
  import opened Words
  import opened Chunks
  import opened Mapping
  import opened HeapState
  import opened HeapSteps
  import opened BestFit
  import opened Growing
  import opened Heap
  import opened Closures

  /** The client names its blocks by numbers of its own. */
  datatype Command =
    | Alloc(name: int, bytes: int, sys: System)
    | Release(name: int, byCode: bool)
    | Put(name: int, index: int, value: int)

  datatype Block = Block(ptr: int, code: int, bytes: int)

  /** The ideal store: for every block, its size and the words written so far. */
  datatype Cell = Cell(bytes: int, words: map<int, int>)
  type Store = map<int, Cell>

  /** Word number i has a byte in a block of the given size. */
  predicate InBlock(bytes: int, i: int) {
    0 <= i && 8 * i < bytes
  }

  /** What a command does to the ideal store. Allocation may fail; that is for the heap to say. */
  function Step(store: Store, cmd: Command, ok: bool): Store {
    if !ok then store
    else match cmd
      case Alloc(name, bytes, sys) => store[name := Cell(bytes, map[])]
      case Release(name, _) => store - {name}
      case Put(name, i, v) => if name in store then store[name := Cell(store[name].bytes, store[name].words[i := v])] else store
  }

  function Outcome(store: Store, cmds: seq<Command>, oks: seq<bool>): Store
    requires |cmds| == |oks|
  {
    if |cmds| == 0 then store
    else Step(Outcome(store, cmds[..|cmds| - 1], oks[..|oks| - 1]), cmds[|cmds| - 1], oks[|oks| - 1])
  }

  // ---------- one block ----------

  /** Block b of the client is live in the heap and holds what the cell says. */
  ghost predicate Served(s: State, b: Block, cell: Cell) {
    var p := b.ptr - 16;
    && IsLive(s.c, p) && b.ptr % 8 == 0 && b.bytes == cell.bytes && b.bytes + CHUNK_OVERHEAD <= s.c[p].size && s.c[p].size % 8 == 0
    && b.code == b.ptr + OffsetOf(s, p)
    && forall i {:trigger i in cell.words} :: i in cell.words ==> InBlock(b.bytes, i) && Rd(s.mem, b.ptr + 8 * i) == cell.words[i]
  }

  /** Words of a block lie within the payload of its chunk. */
  lemma WordInPayload(c: ChunkMap, p: int, bytes: int, i: int)
    requires IsLive(c, p) && bytes + CHUNK_OVERHEAD <= c[p].size && c[p].size % 8 == 0 && InBlock(bytes, i)
    ensures PayloadWord(c, p, p + 16 + 8 * i)
  {
  }

  /** A block that a step does not touch is served as before. */
  lemma StillServed(s: State, s': State, q: int, b: Block, cell: Cell)
    requires Served(s, b, cell) && Undisturbed(s, s', q) && b.ptr - 16 != q
    ensures Served(s', b, cell)
  {
    var p := b.ptr - 16;
    assert UserKept(s, s', p);
    forall i | i in cell.words
      ensures Rd(s'.mem, b.ptr + 8 * i) == cell.words[i]
    {
      WordInPayload(s.c, p, b.bytes, i);
    }
  }

  // ---------- the whole client ----------

  type Table = map<int, Block>

  ghost predicate ServedAt(s: State, table: Table, store: Store, n: int) {
    n in table && n in store ==> Served(s, table[n], store[n])
  }

  predicate Apart(table: Table, m: int, n: int) {
    m in table && n in table && m != n ==> table[m].ptr != table[n].ptr
  }

  /** Chunk p, if live, belongs to some block of the client. */
  ghost predicate Owned(s: State, table: Table, p: int) {
    IsLive(s.c, p) ==> exists n {:trigger table[n]} :: n in table && table[n].ptr - 16 == p
  }

  /** The live chunks of the heap are exactly the client's blocks, and hold what the ideal
      store holds. */
  ghost predicate Serves(s: State, table: Table, store: Store) {
    && table.Keys == store.Keys
    && (forall n {:trigger ServedAt(s, table, store, n)} :: ServedAt(s, table, store, n))
    && (forall m, n {:trigger Apart(table, m, n)} :: Apart(table, m, n))
    && (forall p {:trigger Owned(s, table, p)} :: Owned(s, table, p))
  }

  lemma ServesAllocated(s: State, s': State, table: Table, store: Store, name: int, b: Block)
    requires Serves(s, table, store) && name !in table && Core(s', NOBODY)
    requires 0 <= b.bytes < U64 && HandedOut(s, s', b.ptr - 16, Request2Size(b.bytes)) && b.ptr % 8 == 0
    requires b.code == b.ptr + OffsetOf(s', b.ptr - 16)
    ensures Serves(s', table[name := b], store[name := Cell(b.bytes, map[])])
  {
    hide Served, Undisturbed, Core;
    var p := b.ptr - 16;
    var table', store' := table[name := b], store[name := Cell(b.bytes, map[])];
    NewBlock(s, s', b);
    forall n
      ensures ServedAt(s', table', store', n)
    {
      assert ServedAt(s, table, store, n);
      if n in table && n != name && n in store {
        ServedLive(s, table[n], store[n]);
        StillServed(s, s', p, table[n], store[n]);
      }
    }
    forall m, n
      ensures Apart(table', m, n)
    {
      assert Apart(table, m, n) && ServedAt(s, table, store, m) && ServedAt(s, table, store, n);
      if m in table && m in store { ServedLive(s, table[m], store[m]); }
      if n in table && n in store { ServedLive(s, table[n], store[n]); }
    }
    forall q
      ensures Owned(s', table', q)
    {
      assert Owned(s, table, q);
      if q == p {
        assert table'[name].ptr - 16 == q;
      } else if IsLive(s'.c, q) {
        LiveBefore(s, s', p, q);
        var n :| n in table && table[n].ptr - 16 == q;
        assert table'[n].ptr - 16 == q;
      }
    }
  }

  lemma NewBlock(s: State, s': State, b: Block)
    requires Core(s', NOBODY) && 0 <= b.bytes < U64 && HandedOut(s, s', b.ptr - 16, Request2Size(b.bytes)) && b.ptr % 8 == 0
    requires b.code == b.ptr + OffsetOf(s', b.ptr - 16)
    ensures Served(s', b, Cell(b.bytes, map[]))
  {
    var p := b.ptr - 16;
    PaddingFits(b.bytes);
    InsideOwnSegment(s', p);
    assert ShapeOk(s'.c, s'.segs, p);
  }

  lemma ServedLive(s: State, b: Block, cell: Cell)
    requires Served(s, b, cell)
    ensures IsLive(s.c, b.ptr - 16)
  {
  }

  lemma LiveBefore(s: State, s': State, p: int, q: int)
    requires Undisturbed(s, s', p) && q != p
    ensures IsLive(s.c, q) <==> IsLive(s'.c, q)
  {
    assert UserKept(s, s', q);
  }

  lemma ServesReleased(s: State, s': State, table: Table, store: Store, name: int)
    requires Serves(s, table, store) && name in table && TakenBack(s, s', table[name].ptr - 16)
    ensures Serves(s', table - {name}, store - {name})
  {
    hide Served, Undisturbed;
    var p := table[name].ptr - 16;
    var table', store' := table - {name}, store - {name};
    forall n
      ensures ServedAt(s', table', store', n)
    {
      assert ServedAt(s, table, store, n) && Apart(table, name, n);
      if n in table' && n in store' { StillServed(s, s', p, table[n], store[n]); }
    }
    forall m, n
      ensures Apart(table', m, n)
    {
      assert Apart(table, m, n);
    }
    forall q
      ensures Owned(s', table', q)
    {
      assert Owned(s, table, q);
      if q != p && IsLive(s'.c, q) {
        LiveBefore(s, s', p, q);
        var n :| n in table && table[n].ptr - 16 == q;
        assert table'[n].ptr - 16 == q;
      }
    }
  }

  lemma ServesWritten(s: State, s': State, table: Table, store: Store, name: int, i: int, v: int)
    requires Serves(s, table, store) && name in table && InBlock(table[name].bytes, i)
    requires Undisturbed(s, s', table[name].ptr - 16) && s'.c == s.c && s'.segs == s.segs
    requires s'.mem == Wr(s.mem, table[name].ptr + 8 * i, v)
    ensures Serves(s', table, store[name := Cell(store[name].bytes, store[name].words[i := v])])
  {
    hide Undisturbed, Served;
    var p := table[name].ptr - 16;
    var store' := store[name := Cell(store[name].bytes, store[name].words[i := v])];
    forall n
      ensures ServedAt(s', table, store', n)
    {
      assert ServedAt(s, table, store, n) && Apart(table, name, n);
      if n in table {
        if n == name {
          OwnWritten(s, s', table[n], store[n], i, v);
        } else {
          StillServed(s, s', p, table[n], store[n]);
        }
      }
    }
    forall q
      ensures Owned(s', table, q)
    {
      assert Owned(s, table, q);
    }
  }

  lemma OwnWritten(s: State, s': State, b: Block, cell: Cell, i: int, v: int)
    requires Served(s, b, cell) && InBlock(b.bytes, i) && s'.c == s.c && s'.segs == s.segs
    requires s'.mem == Wr(s.mem, b.ptr + 8 * i, v)
    ensures Served(s', b, Cell(cell.bytes, cell.words[i := v]))
  {
  }

  // ---------- what every command does ----------

  /** The client and its heap at one moment. */
  datatype Moment = Moment(s: State, dv: int, dvsize: int, top: int, topsize: int, table: Table, store: Store)

  /** A mapping that the system may make: over nothing that is mapped, and neither is its image. */
  ghost predicate MayMap(segs: seq<Segment>, sys: System, size: int) {
    && sys.Mapped? && FreshBlock(segs, sys.base, size)
    && (sys.offset == 0 || sys.offset >= size || sys.offset <= -size)
    && forall i {:trigger segs[i]} :: 0 <= i < |segs| ==> MappingApart(segs[i], Image(sys.base, size, sys.offset))
  }

  /** The heap has room for a request, or the system makes room for it. */
  ghost predicate HasRoom(a: Moment, bytes: int, sys: System) {
    var nb := Request2Size(bytes);
    !OnlySystem(a.s.c, a.dvsize, a.topsize, nb) || (nb + TOP_FOOT_SIZE + 1 + PAGE < U64 && MayMap(a.s.segs, sys, MapSize(nb)))
  }

  /** When a command succeeds; freeCode stands for FFI_CLOSURE_FREE_CODE. */
  ghost predicate Succeeds(a: Moment, freeCode: bool, cmd: Command) {
    match cmd
    case Alloc(name, bytes, sys) => name !in a.table && 0 <= bytes < U64 && HasRoom(a, bytes, sys)
    case Release(name, byCode) => name in a.table && (byCode ==> freeCode)
    case Put(name, i, _) => name in a.table && InBlock(a.table[name].bytes, i)
  }

  /** What a command does, and when it does it. Only the entry of its own block ever changes. */
  ghost predicate Transition(a: Moment, freeCode: bool, cmd: Command, ok: bool, b: Moment) {
    && (ok <==> Succeeds(a, freeCode, cmd))
    && (!ok ==> b == a)
    && b.store == Step(a.store, cmd, ok)
    && (ok ==> match cmd
          case Alloc(name, bytes, _) =>
            && name in b.table && b.table == a.table[name := b.table[name]] && b.table[name].bytes == bytes
            && HandedOut(a.s, b.s, b.table[name].ptr - 16, Request2Size(bytes))
            && b.table[name].code == b.table[name].ptr + OffsetOf(b.s, b.table[name].ptr - 16)
          case Release(name, _) => b.table == a.table - {name} && TakenBack(a.s, b.s, a.table[name].ptr - 16)
          case Put(name, i, v) => b.table == a.table && b.s == a.s.(mem := Wr(a.s.mem, a.table[name].ptr + 8 * i, v)))
  }

  /** The state of the heap is sound, serves the client, and has its images apart. */
  ghost predicate Holds(a: Moment) {
    && Core(a.s, NOBODY) && PointersOk(a.s, a.dv, a.dvsize, a.top, a.topsize)
    && Serves(a.s, a.table, a.store) && ImagesApart(a.s.segs)
  }

  /** Both addresses of every block of the client lead back to the block. */
  lemma AddressesLeadBack(a: Moment, n: int)
    requires Holds(a) && n in a.table
    ensures FreeAddress(a.s.segs, a.table[n].ptr) == a.table[n].ptr && FreeAddress(a.s.segs, a.table[n].code) == a.table[n].ptr
    ensures IsLive(a.s.c, a.table[n].ptr - 16) && LOW <= a.table[n].ptr - 16
  {
    hide Core, PointersOk, ImagesApart;
    assert ServedAt(a.s, a.table, a.store, n);
    LiveNonzero(a.s, a.table[n].ptr - 16);
    FreeAddressWorks(a.s, a.table[n].ptr - 16);
  }

  // ---------- runs ----------

  /** The moments of a run, one more than commands. */
  ghost predicate IsRun(trace: seq<Moment>, freeCode: bool, cmds: seq<Command>, oks: seq<bool>) {
    && |oks| == |cmds| && |trace| == |cmds| + 1
    && (forall i {:trigger trace[i]} :: 0 <= i < |trace| ==> Holds(trace[i]))
    && (forall i {:trigger cmds[i]} :: 0 <= i < |cmds| ==> Transition(trace[i], freeCode, cmds[i], oks[i], trace[i + 1]))
  }

  predicate ReleasedBetween(cmds: seq<Command>, n: int, i: nat, j: nat) {
    exists k {:trigger cmds[k]} :: i <= k < j && k < |cmds| && cmds[k].Release? && cmds[k].name == n
  }

  /** Over any part of a run, a block that is not released keeps both its addresses, and they go on
      leading back to it. */
  lemma {:induction false} AddressesStay(trace: seq<Moment>, freeCode: bool, cmds: seq<Command>, oks: seq<bool>, n: int, i: nat, j: nat)
    requires IsRun(trace, freeCode, cmds, oks) && i <= j < |trace| && n in trace[i].table && !ReleasedBetween(cmds, n, i, j)
    ensures n in trace[j].table && trace[j].table[n] == trace[i].table[n]
    ensures FreeAddress(trace[j].s.segs, trace[i].table[n].ptr) == trace[i].table[n].ptr
    ensures FreeAddress(trace[j].s.segs, trace[i].table[n].code) == trace[i].table[n].ptr
    ensures IsLive(trace[j].s.c, trace[i].table[n].ptr - 16)
    decreases j
  {
    hide Holds, FreeAddress, HasRoom, HandedOut, TakenBack;
    if i < j {
      assert !ReleasedBetween(cmds, n, i, j - 1);
      AddressesStay(trace, freeCode, cmds, oks, n, i, j - 1);
      assert cmds[j - 1] == cmds[j - 1] && Transition(trace[j - 1], freeCode, cmds[j - 1], oks[j - 1], trace[j]);
    }
    AddressesLeadBack(trace[j], n);
  }

  lemma OneMore(trace: seq<Moment>, freeCode: bool, cmds: seq<Command>, oks: seq<bool>, cmd: Command, ok: bool, b: Moment)
    requires IsRun(trace, freeCode, cmds, oks) && Holds(b) && Transition(trace[|trace| - 1], freeCode, cmd, ok, b)
    ensures IsRun(trace + [b], freeCode, cmds + [cmd], oks + [ok])
  {
    hide Holds, Transition;
  }

  // ---------- the client itself ----------

  class Client {
    const heap: MallocState
    const freeCode: bool
    var table: Table
    ghost var store: Store

    ghost function Now(): Moment
      reads this, heap
    {
      Moment(heap.S(), heap.dv, heap.dvsize, heap.top, heap.topsize, table, store)
    }

    ghost predicate Valid()
      reads this, heap
    {
      heap.Valid() && Holds(Now())
    }

    constructor (initial: Mem, freeCode: bool)
      requires forall a {:trigger Rd(initial, a)} :: a < LOW ==> Rd(initial, a) == 0
      ensures Valid() && fresh(heap) && store == map[] && table == map[] && this.freeCode == freeCode
    {
      heap := new MallocState(initial);
      this.freeCode := freeCode;
      table := map[];
      store := map[];
    }

    /** The system never maps over what is mapped; a mapping that would is refused. */
    method Screen(sys: System, size: int) returns (answer: System)
      requires heap.Valid()
      ensures answer == if MayMap(heap.segs, sys, size) then sys else Refused
    {
      hide Core, PointersOk, ImagesOk, Rd, MappingApart;
      answer := Refused;
      if sys.Mapped? && LOW <= sys.base && sys.base % PAGE == 0 && size % PAGE == 0 && PAGE <= size && sys.base + size < U64
         && (sys.offset == 0 || sys.offset >= size || sys.offset <= -size) {
        var free := true;
        ghost var k := |heap.segs| - 1;
        Initialized(heap.S(), heap.dv, heap.dvsize, heap.top, heap.topsize);
        var sp := if heap.top == 0 then 0 else SEG_HEAD;
        if k >= 0 { ListHead(heap.S()); }
        while sp != 0
          invariant -1 <= k < |heap.segs| && sp == RecordAddress(heap.segs, k)
          invariant free <==> forall i {:trigger heap.segs[i]} :: k < i < |heap.segs| ==> Clear(heap.segs[i], sys, size)
          decreases k
        {
          ReadRecord(heap.S(), k);
          var g := Segment(Rd(heap.mem, sp), Rd(heap.mem, sp + 8), Rd(heap.mem, sp + 24), sp);
          ClearOf(g, heap.segs[k], sys, size);
          if !Clear(g, sys, size) {
            free := false;
          }
          NoRecordLeft(heap.S(), k);
          sp := Rd(heap.mem, sp + 16);
          k := k - 1;
        }
        if k >= 0 { ReadRecord(heap.S(), k); }
        if free {
          answer := sys;
        }
      }
    }

    method Allocate(name: int, bytes: int, sys: System) returns (ok: bool)
      requires Valid()
      modifies this, heap
      ensures Valid() && Transition(old(Now()), freeCode, Alloc(name, bytes, sys), ok, Now())
    {
      hide Core, PointersOk, ImagesOk, Undisturbed, Serves, MapSize, FreshBlock, HandedOut, ImagesApart, OnlySystem, MappingApart, Grown;
      ok := false;
      if name !in table && 0 <= bytes < U64 {
        var answer := Screen(sys, MapSize(Request2Size(bytes)));
        MayMapFresh(heap.segs, sys, MapSize(Request2Size(bytes)));
        ghost var s0 := heap.S();
        var ptr, code := FfiClosureAlloc(heap, bytes, true, answer);
        if ptr != 0 {
          if heap.segs != s0.segs { StillApart(s0.segs, heap.segs, answer, MapSize(Request2Size(bytes))); }
          ServesAllocated(s0, heap.S(), table, store, name, Block(ptr, code, bytes));
          table := table[name := Block(ptr, code, bytes)];
          store := store[name := Cell(bytes, map[])];
          ok := true;
        }
      }
    }

    /** Releasing a block, by its writable address or, if the build allows it, by its executable one. */
    method Free(name: int, byCode: bool) returns (ok: bool)
      requires Valid()
      modifies this, heap
      ensures Valid() && Transition(old(Now()), freeCode, Release(name, byCode), ok, Now())
    {
      hide Core, PointersOk, ImagesOk, Undisturbed, ImagesApart, FreeAddress, Serves, TakenBack;
      ok := name in table && (byCode ==> freeCode);
      if ok {
        ghost var s0 := heap.S();
        AddressesLeadBack(Now(), name);
        FfiClosureFree(heap, if byCode then table[name].code else table[name].ptr, freeCode);
        ServesReleased(s0, heap.S(), table, store, name);
        table := table - {name};
        store := store - {name};
      }
    }

    method Write(name: int, i: int, v: int) returns (ok: bool)
      requires Valid()
      modifies this, heap
      ensures Valid() && Transition(old(Now()), freeCode, Put(name, i, v), ok, Now())
    {
      hide Core, PointersOk, ImagesOk, Undisturbed, Rd, Wr, ImagesApart;
      ok := name in table && InBlock(table[name].bytes, i);
      assert ServedAt(heap.S(), table, store, name);
      if ok {
        ghost var s0 := heap.S();
        WordInPayload(heap.chunks, table[name].ptr - 16, table[name].bytes, i);
        heap.Store(table[name].ptr + 8 * i, v, table[name].ptr - 16);
        ServesWritten(s0, heap.S(), table, store, name, i, v);
        store := store[name := Cell(store[name].bytes, store[name].words[i := v])];
      }
    }

    /** Reading a word gives what was last written to it. */
    method Read(name: int, i: int) returns (v: int)
      requires Valid() && name in store && i in store[name].words
      ensures v == store[name].words[i]
    {
      hide Core, PointersOk, ImagesOk, Rd, ImagesApart;
      assert ServedAt(heap.S(), table, store, name);
      v := Rd(heap.mem, table[name].ptr + 8 * i);
    }

    /** Any run, from any reachable state: every command does to the heap and to the blocks what it
        does to the ideal store, and succeeds exactly when it should. */
    method Run(cmds: seq<Command>) returns (oks: seq<bool>, ghost trace: seq<Moment>)
      requires Valid()
      modifies this, heap
      ensures Valid() && IsRun(trace, freeCode, cmds, oks) && trace[0] == old(Now()) && trace[|cmds|] == Now()
      ensures store == Outcome(old(store), cmds, oks)
      ensures forall n, i: nat, j: nat {:trigger trace[i].table, trace[j].table[n]} ::
                i <= j <= |cmds| && n in trace[i].table && !ReleasedBetween(cmds, n, i, j) ==> n in trace[j].table && trace[j].table[n] == trace[i].table[n]
    {
      hide Core, PointersOk, ImagesOk, Serves, Step, Transition, ImagesApart, IsRun, Holds;
      oks, trace := [], [Now()];
      NoCommands(Now(), freeCode);
      for i := 0 to |cmds|
        invariant |oks| == i && |trace| == i + 1 && store == Outcome(old(store), cmds[..i], oks)
        invariant Valid() && IsRun(trace, freeCode, cmds[..i], oks) && trace[0] == old(Now()) && trace[i] == Now()
      {
        var ok: bool;
        match cmds[i] {
          case Alloc(name, bytes, sys) => ok := Allocate(name, bytes, sys);
          case Release(name, byCode) => ok := Free(name, byCode);
          case Put(name, index, value) => ok := Write(name, index, value);
        }
        OneMore(trace, freeCode, cmds[..i], oks, cmds[i], ok, Now());
        StoreStep(trace[i], freeCode, cmds[i], ok, Now());
        assert cmds[..i + 1] == cmds[..i] + [cmds[i]];
        assert cmds[..i + 1][..i] == cmds[..i] && (oks + [ok])[..i] == oks;
        oks, trace := oks + [ok], trace + [Now()];
      }
      assert cmds[..|cmds|] == cmds;
      RunLength(trace, freeCode, cmds, oks);
      forall n, i: nat, j: nat | i <= j <= |cmds| && n in trace[i].table && !ReleasedBetween(cmds, n, i, j)
        ensures n in trace[j].table && trace[j].table[n] == trace[i].table[n]
      {
        AddressesStay(trace, freeCode, cmds, oks, n, i, j);
      }
    }
  }

  lemma NoCommands(a: Moment, freeCode: bool)
    requires Holds(a)
    ensures IsRun([a], freeCode, [], [])
  {
    hide Holds;
  }

  lemma RunLength(trace: seq<Moment>, freeCode: bool, cmds: seq<Command>, oks: seq<bool>)
    requires IsRun(trace, freeCode, cmds, oks)
    ensures |trace| == |cmds| + 1
  {
  }

  lemma StoreStep(a: Moment, freeCode: bool, cmd: Command, ok: bool, b: Moment)
    requires Transition(a, freeCode, cmd, ok, b)
    ensures b.store == Step(a.store, cmd, ok)
  {
  }

  /** A mapping of the given size is clear of a segment and its image. */
  predicate Clear(g: Segment, sys: System, size: int) {
    sys.Mapped? && (sys.base + size <= g.base || g.End() <= sys.base) && MappingApart(g, Image(sys.base, size, sys.offset))
  }

  /** That depends on base, size and offset only. */
  lemma ClearOf(g: Segment, h: Segment, sys: System, size: int)
    requires g.base == h.base && g.size == h.size && g.offset == h.offset
    ensures Clear(g, sys, size) <==> Clear(h, sys, size)
  {
  }

  lemma MayMapFresh(segs: seq<Segment>, sys: System, size: int)
    ensures MayMap(segs, sys, size) ==> sys.Mapped? && FreshBlock(segs, sys.base, size) && PAGE <= size
  {
  }

  lemma StillApart(segs: seq<Segment>, segs': seq<Segment>, sys: System, size: int)
    requires MayMap(segs, sys, size) && ImagesApart(segs) && Grown(segs, segs', Image(sys.base, size, sys.offset))
    ensures ImagesApart(segs')
  {
    ImagesStayApart(segs, segs', Image(sys.base, size, sys.offset));
  }

  lemma LiveNonzero(s: State, p: int)
    requires Core(s, NOBODY) && IsLive(s.c, p)
    ensures p >= LOW
  {
    AboveLow(s.c, s.segs, p);
  }
}
