/** The foreign library's side of the boundary: the C records it builds,
    the memory they live in, and the context record through which the
    decoder reaches them. Raw pointer reads become look-ups in two maps,
    guarded by the context being open. */
module Foreign {
  import opened Machine

  /** A foreign address; 0 is the null pointer. */
  type Addr = nat

  const NULL: Addr := 0

  /** Capacity of a record's key buffer (`CFG_MAX_KEY_NAME`). */
  const CFG_MAX_KEY_NAME: nat := 128

  /** The fixed-size key buffer of a record. */
  type KeyBuf = s: seq<Byte> | |s| == CFG_MAX_KEY_NAME witness seq(128, _ => 0)

  /** The 8 raw bytes of a record's payload (`cfg_data`). */
  type Payload = s: seq<Byte> | |s| == 8 witness [0, 0, 0, 0, 0, 0, 0, 0]

  /** One tree record as the library lays it out: key buffer, type tag,
      first-child and next-sibling links, raw payload. */
  datatype Record = Record(key: KeyBuf, tag: Int32, childs: Addr, next: Addr, payload: Payload)

  /** The foreign memory of one open context: records, and the buffers that
      string payloads point to (each holds a nul-terminated string). */
  datatype Heap = Heap(records: map<Addr, Record>, strings: map<Addr, seq<Byte>>)

  /** The pointer stored in a payload: its 8 bytes read as a little-endian
      64-bit address. */
  function PayloadAddr(p: Payload): (a: Addr)
    ensures a < TWO_64
  {
    assert Pow256(8) == TWO_64;
    LeValue(p)
  }

  /** The bytes of a nul-terminated buffer before its first nul: what
      `CStr::from_ptr` sees. */
  function BeforeNul(b: seq<Byte>): (r: seq<Byte>)
    requires 0 in b
    ensures |r| < |b| && b[..|r|] == r && b[|r|] == 0 && 0 !in r
  {
    if b[0] == 0 then [] else [b[0]] + BeforeNul(b[1..])
  }

  /** A nul-terminated buffer of text bytes, read back up to its nul,
      gives the text bytes. */
  lemma {:induction false} BeforeNulOfTerminated(s: seq<Byte>)
    requires 0 !in s
    ensures BeforeNul(s + [0]) == s
  {
    if s != [] {
      assert (s + [0])[1..] == s[1..] + [0];
      BeforeNulOfTerminated(s[1..]);
    }
  }

  /** What the library guarantees of every record, apart from acyclicity:
      links go to records, the key buffer holds a nul, and a String record
      points at a string buffer. */
  ghost predicate Fits(h: Heap, rec: Record) {
    (rec.childs == NULL || rec.childs in h.records)
    && (rec.next == NULL || rec.next in h.records)
    && 0 in rec.key
    && (rec.tag == 2 ==> PayloadAddr(rec.payload) in h.strings)
  }

  /** The link from a record of rank `from` to `to` points down or is null. */
  ghost predicate Below(rank: map<Addr, nat>, from: nat, to: Addr) {
    to == NULL || (to in rank && rank[to] < from)
  }

  /** The library's memory forms finite, acyclic child/sibling chains:
      `rank` strictly decreases along every link, so every walk ends. */
  ghost predicate WellFormed(h: Heap, rank: map<Addr, nat>) {
    NULL !in h.records && NULL !in h.strings
    && (forall a :: a in h.records ==> a in rank)
    && (forall a {:trigger h.records[a]} :: a in h.records ==>
          Fits(h, h.records[a])
          && Below(rank, rank[a], h.records[a].childs)
          && Below(rank, rank[a], h.records[a].next))
    && (forall a :: a in h.strings ==> 0 in h.strings[a])
  }

  /** A measure for the walk starting at `a`: 0 for null, above the rank of
      every address reachable from `a` otherwise. */
  function Depth(rank: map<Addr, nat>, a: Addr): nat {
    if a == NULL || a !in rank then 0 else rank[a] + 1
  }

  /** The context record the library fills in (`Ctx`), together with the
      memory its pointers lead to. That memory may be read only between a
      successful init and the finalize call; `live` records that window. */
  class Ctx {
    var meta: Addr
    var metaCount: Int32
    var cfg: Addr
    var memory: Heap
    var live: bool

    /** The zeroed record the caller hands to init. */
    constructor ()
      ensures meta == NULL && metaCount == 0 && cfg == NULL
      ensures memory == Heap(map[], map[]) && !live
    {
      meta, metaCount, cfg := NULL, 0, NULL;
      memory := Heap(map[], map[]);
      live := false;
    }

    /** Copy the record at a non-null address (`ptr::read`). */
    method ReadCfg(addr: Addr) returns (rec: Record)
      requires live && addr in memory.records
      ensures rec == memory.records[addr]
    {
      rec := memory.records[addr];
    }

    /** The bytes of the nul-terminated string at `addr` (`CStr::from_ptr`). */
    method ReadCStr(addr: Addr) returns (bytes: seq<Byte>)
      requires live && addr in memory.strings && 0 in memory.strings[addr]
      ensures bytes == BeforeNul(memory.strings[addr])
    {
      bytes := BeforeNul(memory.strings[addr]);
    }
  }
}
