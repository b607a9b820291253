/** The machine level of the allocator: 64-bit words, a word-addressed memory, and the
    size arithmetic of chunks.

    A memory maps byte addresses (multiples of 8) to 64-bit words.  Words never written
    read as zero, as pages fresh from the system do. */
module Words {

  const U64: int := 0x1_0000_0000_0000_0000

  /** size_t subtraction, which wraps around zero. */
  function Sub64(a: int, b: int): int {
    (a - b) % U64
  }

  /** size_t addition, which wraps around zero. */
  function Add64(a: int, b: int): int {
    (a + b) % U64
  }

  type Mem = map<int, int>

  function Rd(m: Mem, a: int): int {
    if a in m then m[a] else 0
  }

  function Wr(m: Mem, a: int, v: int): (r: Mem)
    ensures forall x {:trigger Rd(r, x)} :: Rd(r, x) == if x == a then v else Rd(m, x)
  {
    m[a := v]
  }

  lemma WrCommute(m: Mem, a: int, v: int, b: int, w: int)
    requires a != b
    ensures Wr(Wr(m, a, v), b, w) == Wr(Wr(m, b, w), a, v)
  {
  }

  // Offsets of the fields of malloc_chunk and malloc_tree_chunk.
  const PREV_FOOT: int := 0
  const HEAD: int := 8
  const FD: int := 16
  const BK: int := 24
  const CHILD: int := 32
  const PARENT: int := 48
  const INDEX: int := 56

  // Sizes for 8-byte size_t, 8-byte alignment and no footers.
  const MIN_CHUNK_SIZE: int := 32
  const CHUNK_OVERHEAD: int := 8
  const MIN_REQUEST: int := 23
  const MIN_LARGE_SIZE: int := 256
  const MAX_SMALL_REQUEST: int := 240
  const MAX_REQUEST: int := U64 - 128
  const SEGMENT_SIZE: int := 40   // pad_request(sizeof (struct malloc_segment))
  const TOP_FOOT_SIZE: int := 72  // room for that record and a minimal chunk of fenceposts
  const FENCEPOST_HEAD: int := 11
  const PAGE: int := 4096

  // The static malloc_state: bin headers, tree roots, and the embedded segment record.
  const SMALLBINS: int := 0x1000
  const TREEBINS: int := 0x1400
  const SEG_HEAD: int := 0x1800
  const LOW: int := 0x2000  // everything mapped lies above the static data

  /** smallbin_at: the header of small bin i, posing as a chunk. */
  function SmallBinAt(i: int): int {
    SMALLBINS + 16 * i
  }

  /** treebin_at: the address of the root pointer of treebin i. */
  function TreeBinAt(i: int): int {
    TREEBINS + 8 * i
  }

  predicate IsSmall(s: int) {
    s / 8 < 32
  }

  function PadRequest(req: int): int {
    (req + CHUNK_OVERHEAD + 7) / 8 * 8
  }

  function Request2Size(req: int): int {
    if req < MIN_REQUEST then MIN_CHUNK_SIZE else PadRequest(req)
  }

  /** The padded size is the least legal chunk size that leaves the client its bytes,
      counting the word borrowed from the next chunk. */
  lemma Request2SizeFits(req: int)
    requires 0 <= req
    ensures Request2Size(req) % 8 == 0 && Request2Size(req) >= MIN_CHUNK_SIZE
    ensures Request2Size(req) >= req + CHUNK_OVERHEAD
    ensures forall s :: s % 8 == 0 && s >= MIN_CHUNK_SIZE && s >= req + CHUNK_OVERHEAD ==> s >= Request2Size(req)
    ensures req <= MAX_SMALL_REQUEST <==> IsSmall(Request2Size(req))
  {
  }

  /** granularity_align in size_t arithmetic: always rounds strictly up, and may wrap. */
  function GranularityAlign(s: int): int {
    Add64(s, PAGE) / PAGE * PAGE
  }

  /** The two sizes around the end of a segment, as the source derives them. */
  lemma FootSizes()
    ensures SEGMENT_SIZE == PadRequest(32) && TOP_FOOT_SIZE == PadRequest(32) + MIN_CHUNK_SIZE
  {
  }

  /** The size that sys_alloc asks the system for. */
  function MapSize(nb: int): int {
    GranularityAlign(Add64(Add64(nb, TOP_FOOT_SIZE), 1))
  }

  /** The wrap-around test `rsize > nb` accepts exactly the requests whose padding does not
      wrap, and then the mapping has room for the request, a non-empty top and its foot, and is at
      most a page larger. */
  lemma MapSizeFits(nb: int)
    requires 0 <= nb < U64
    ensures MapSize(nb) > nb <==> nb + TOP_FOOT_SIZE + 1 + PAGE < U64
    ensures MapSize(nb) > nb ==> MapSize(nb) % PAGE == 0 && nb + TOP_FOOT_SIZE + 1 < MapSize(nb) <= nb + TOP_FOOT_SIZE + 1 + PAGE
  {
    var a := Add64(Add64(nb, TOP_FOOT_SIZE), 1);
    if nb + TOP_FOOT_SIZE + 1 + PAGE < U64 {
      assert a == nb + TOP_FOOT_SIZE + 1;
      assert Add64(a, PAGE) == a + PAGE;
    } else if nb + TOP_FOOT_SIZE + 1 < U64 {
      assert Add64(a, PAGE) == a + PAGE - U64;
    } else {
      assert a == nb + TOP_FOOT_SIZE + 1 - U64;
    }
  }
}
