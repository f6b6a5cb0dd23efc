/** The tree decoder: `get_cfg` and `get_cfg_childs` (src/c_nereon.rs).
    DecodeRecord and Children say what decoding a record and a sibling
    chain yields; the methods GetCfg and GetCfgChilds do it by reading the
    foreign memory through an open context, and are proved to compute
    exactly those values. */
module Decoder {
  import opened Results
  import opened Machine
  import opened Utf8
  import opened Config
  import opened Foreign

  /** Why the decoder (or the path marshalling before it) panics. A panic
      unwinds out of the whole call: there is never a partial tree. */
  datatype Panic =
    | NonUtf8Path       // `Path::to_str` found the path not to be UTF-8
    | InteriorNul       // `CString::new` found a nul byte inside the path
    | NonUtf8Key        // a record's key is not UTF-8
    | NonUtf8String     // a String record's text is not UTF-8
    | UnknownTag(tag: Int32)  // a tag other than 0, 2, 3 and 6

  /** A record's key: its buffer up to the first nul, as text. */
  function KeyText(rec: Record): (r: Result<string, Panic>)
    requires 0 in rec.key
    ensures r.Ok? ==> Encode(r.value) == BeforeNul(rec.key)
    ensures r.Err? ==> r.error == NonUtf8Key
  {
    EncodeDecode(BeforeNul(rec.key));
    match Decode(BeforeNul(rec.key))
    case None => Err(NonUtf8Key)
    case Some(key) => Ok(key)
  }

  /** The addresses on the sibling chain that starts at `addr`, in order. */
  function Chain(h: Heap, ghost rank: map<Addr, nat>, addr: Addr): (c: seq<Addr>)
    requires WellFormed(h, rank) && (addr == NULL || addr in h.records)
    ensures forall k :: 0 <= k < |c| ==> c[k] in h.records
    ensures c == [] <==> addr == NULL
    ensures c != [] ==> c[0] == addr && h.records[c[|c| - 1]].next == NULL
    ensures forall k :: 0 <= k < |c| - 1 ==> h.records[c[k]].next == c[k + 1]
    decreases Depth(rank, addr)
  {
    if addr == NULL then [] else [addr] + Chain(h, rank, h.records[addr].next)
  }

  /** The tree decoded from one record, or the panic it causes. */
  function DecodeRecord(h: Heap, ghost rank: map<Addr, nat>, rec: Record): (r: Result<Cfg, Panic>)
    requires WellFormed(h, rank) && Fits(h, rec)
    decreases Depth(rank, rec.childs), 2
  {
    match KeyText(rec)
    case Err(e) => Err(e)
    case Ok(key) =>
      if rec.tag == 0 then
        Ok(Cfg(key, Int(I64FromLe(rec.payload))))
      else if rec.tag == 2 then
        match Decode(BeforeNul(h.strings[PayloadAddr(rec.payload)]))
        case None => Err(NonUtf8String)
        case Some(s) => Ok(Cfg(key, String(s)))
      else if rec.tag == 3 || rec.tag == 6 then
        match Children(h, rank, rec.childs)
        case Err(e) => Err(e)
        case Ok(items) => Ok(Cfg(key, if rec.tag == 3 then Array(items) else Object(items)))
      else
        Err(UnknownTag(rec.tag))
  }

  /** The trees decoded from the sibling chain starting at `addr`, in
      chain order, or the first panic met along it. */
  function Children(h: Heap, ghost rank: map<Addr, nat>, addr: Addr): (r: Result<seq<Cfg>, Panic>)
    requires WellFormed(h, rank) && (addr == NULL || addr in h.records)
    decreases Depth(rank, addr), 1
  {
    if addr == NULL then Ok([])
    else
      match DecodeRecord(h, rank, h.records[addr])
      case Err(e) => Err(e)
      case Ok(c) =>
        match Children(h, rank, h.records[addr].next)
        case Err(e) => Err(e)
        case Ok(cs) => Ok([c] + cs)
  }

  /** `prefix` put in front of a successful list; a panic stays a panic. */
  function Prefixed(prefix: seq<Cfg>, r: Result<seq<Cfg>, Panic>): Result<seq<Cfg>, Panic> {
    match r
    case Ok(cs) => Ok(prefix + cs)
    case Err(e) => Err(e)
  }

  /** One step of the walk: the record at `addr` either panics, which is the
      panic of the whole chain, or moves to the end of the decoded prefix. */
  lemma PrefixedStep(h: Heap, rank: map<Addr, nat>, addr: Addr, cfgs: seq<Cfg>)
    requires WellFormed(h, rank) && addr in h.records
    ensures var d := DecodeRecord(h, rank, h.records[addr]);
      Prefixed(cfgs, Children(h, rank, addr))
        == if d.Err? then Err(d.error) else Prefixed(cfgs + [d.value], Children(h, rank, h.records[addr].next))
  {
    var d := DecodeRecord(h, rank, h.records[addr]);
    if d.Ok? {
      match Children(h, rank, h.records[addr].next)
      case Ok(cs) => assert cfgs + ([d.value] + cs) == (cfgs + [d.value]) + cs;
      case Err(_) =>
    }
  }

  /** `get_cfg`: decode the key, then dispatch on the tag. */
  method GetCfg(ctx: Ctx, rec: Record, ghost rank: map<Addr, nat>) returns (r: Result<Cfg, Panic>)
    requires ctx.live && WellFormed(ctx.memory, rank) && Fits(ctx.memory, rec)
    ensures r == DecodeRecord(ctx.memory, rank, rec)
    decreases Depth(rank, rec.childs), 2
  {
    var key := KeyText(rec);
    if key.Err? {
      return Err(key.error);
    }
    var data: CfgData;
    if rec.tag == 0 {
      data := Int(I64FromLe(rec.payload));
    } else if rec.tag == 2 {
      var bytes := ctx.ReadCStr(PayloadAddr(rec.payload));
      var text := Decode(bytes);
      if text.None? {
        return Err(NonUtf8String);
      }
      data := String(text.value);
    } else if rec.tag == 3 {
      var items := GetCfgChilds(ctx, rec, rank);
      if items.Err? {
        return Err(items.error);
      }
      data := Array(items.value);
    } else if rec.tag == 6 {
      var items := GetCfgChilds(ctx, rec, rank);
      if items.Err? {
        return Err(items.error);
      }
      data := Object(items.value);
    } else {
      return Err(UnknownTag(rec.tag));
    }
    r := Ok(Cfg(key.value, data));
  }

  /** `get_cfg_childs`: walk `childs`, `next`, `next`, ... up to null,
      decoding each record and appending it to the list. */
  method GetCfgChilds(ctx: Ctx, rec: Record, ghost rank: map<Addr, nat>) returns (r: Result<seq<Cfg>, Panic>)
    requires ctx.live && WellFormed(ctx.memory, rank) && Fits(ctx.memory, rec)
    ensures r == Children(ctx.memory, rank, rec.childs)
    decreases Depth(rank, rec.childs), 1
  {
    var cfgs: seq<Cfg> := [];
    var addr := rec.childs;
    match Children(ctx.memory, rank, addr) {
      case Ok(cs) => assert [] + cs == cs;
      case Err(_) =>
    }
    while addr != NULL
      invariant addr == NULL || addr in ctx.memory.records
      invariant Depth(rank, addr) <= Depth(rank, rec.childs)
      invariant Children(ctx.memory, rank, rec.childs) == Prefixed(cfgs, Children(ctx.memory, rank, addr))
      decreases Depth(rank, addr)
    {
      var child := ctx.ReadCfg(addr);
      var c := GetCfg(ctx, child, rank);
      PrefixedStep(ctx.memory, rank, addr, cfgs);
      if c.Err? {
        return Err(c.error);
      }
      cfgs := cfgs + [c.value];
      addr := child.next;
    }
    assert cfgs + [] == cfgs;
    r := Ok(cfgs);
  }
  /** Every record at an address of `cs` decodes. */
  ghost predicate AllDecode(h: Heap, rank: map<Addr, nat>, cs: seq<Addr>)
    requires WellFormed(h, rank) && forall i :: 0 <= i < |cs| ==> cs[i] in h.records
  {
    forall k :: 0 <= k < |cs| ==> DecodeRecord(h, rank, h.records[cs[k]]).Ok?
  }

  /** `items` holds, position by position, the trees decoded from the
      records at the addresses of `cs`. */
  ghost predicate DecodesTo(h: Heap, rank: map<Addr, nat>, cs: seq<Addr>, items: seq<Cfg>)
    requires WellFormed(h, rank) && forall i :: 0 <= i < |cs| ==> cs[i] in h.records
  {
    |items| == |cs| && forall k :: 0 <= k < |cs| ==> DecodeRecord(h, rank, h.records[cs[k]]) == Ok(items[k])
  }

  /** A list with a record in front decodes exactly when the record and
      the rest do. */
  lemma AllDecodeCons(h: Heap, rank: map<Addr, nat>, addr: Addr, tail: seq<Addr>)
    requires WellFormed(h, rank) && addr in h.records && forall i :: 0 <= i < |tail| ==> tail[i] in h.records
    ensures AllDecode(h, rank, [addr] + tail)
      <==> DecodeRecord(h, rank, h.records[addr]).Ok? && AllDecode(h, rank, tail)
  {
    var cs := [addr] + tail;
    assert cs[0] == addr;
    assert forall k :: 0 <= k < |tail| ==> cs[k + 1] == tail[k];
  }

  /** A record in front of a decoded list puts its tree in front. */
  lemma DecodesToCons(h: Heap, rank: map<Addr, nat>, addr: Addr, tail: seq<Addr>, c: Cfg, items: seq<Cfg>)
    requires WellFormed(h, rank) && addr in h.records && forall i :: 0 <= i < |tail| ==> tail[i] in h.records
    requires DecodeRecord(h, rank, h.records[addr]) == Ok(c) && DecodesTo(h, rank, tail, items)
    ensures DecodesTo(h, rank, [addr] + tail, [c] + items)
  {
    var cs, all := [addr] + tail, [c] + items;
    forall k | 0 <= k < |cs|
      ensures DecodeRecord(h, rank, h.records[cs[k]]) == Ok(all[k])
    {
      if k > 0 {
        assert cs[k] == tail[k - 1] && all[k] == items[k - 1];
      }
    }
  }

  /** The decoded list has one entry per record on the sibling chain, in
      chain order; it fails exactly when some record on the chain fails. */
  lemma {:induction false} ChildrenFollowChain(h: Heap, rank: map<Addr, nat>, addr: Addr)
    requires WellFormed(h, rank) && (addr == NULL || addr in h.records)
    ensures Children(h, rank, addr).Ok? <==> AllDecode(h, rank, Chain(h, rank, addr))
    ensures Children(h, rank, addr).Ok? ==> DecodesTo(h, rank, Chain(h, rank, addr), Children(h, rank, addr).value)
    decreases Depth(rank, addr)
  {
    if addr != NULL {
      var next := h.records[addr].next;
      ChildrenFollowChain(h, rank, next);
      var cs, tail := Chain(h, rank, addr), Chain(h, rank, next);
      assert cs == [addr] + tail;
      var d, rest, r := DecodeRecord(h, rank, h.records[addr]), Children(h, rank, next), Children(h, rank, addr);
      assert r == if d.Err? then Err(d.error) else if rest.Err? then Err(rest.error) else Ok([d.value] + rest.value);
      AllDecodeCons(h, rank, addr, tail);
      if r.Ok? {
        DecodesToCons(h, rank, addr, tail, d.value, rest.value);
      }
    }
  }

  /** Position `k` of the address list `cs` is its first failing record:
      that record panics with `e` and every record before it decodes. */
  ghost predicate FirstPanicAt(h: Heap, rank: map<Addr, nat>, cs: seq<Addr>, k: int, e: Panic)
    requires WellFormed(h, rank) && forall i :: 0 <= i < |cs| ==> cs[i] in h.records
  {
    0 <= k < |cs| && DecodeRecord(h, rank, h.records[cs[k]]) == Err(e)
    && forall j :: 0 <= j < k ==> DecodeRecord(h, rank, h.records[cs[j]]).Ok?
  }

  /** Putting a record that decodes in front of a list moves its first
      failing position by one. */
  lemma FirstPanicShift(h: Heap, rank: map<Addr, nat>, addr: Addr, tail: seq<Addr>, k: int, e: Panic)
    requires WellFormed(h, rank) && addr in h.records && forall i :: 0 <= i < |tail| ==> tail[i] in h.records
    requires DecodeRecord(h, rank, h.records[addr]).Ok? && FirstPanicAt(h, rank, tail, k, e)
    ensures FirstPanicAt(h, rank, [addr] + tail, k + 1, e)
  {
    var cs := [addr] + tail;
    assert cs[k + 1] == tail[k];
    forall j | 0 <= j < k + 1
      ensures DecodeRecord(h, rank, h.records[cs[j]]).Ok?
    {
      if j > 0 {
        assert cs[j] == tail[j - 1];
      }
    }
  }

  /** A chain that fails, fails with the panic of its first failing record. */
  lemma {:induction false} ChildrenFirstPanic(h: Heap, rank: map<Addr, nat>, addr: Addr)
    requires WellFormed(h, rank) && (addr == NULL || addr in h.records)
    ensures Children(h, rank, addr).Err? ==>
      exists k :: FirstPanicAt(h, rank, Chain(h, rank, addr), k, Children(h, rank, addr).error)
    decreases Depth(rank, addr)
  {
    if addr != NULL {
      var next := h.records[addr].next;
      var cs, tail := Chain(h, rank, addr), Chain(h, rank, next);
      assert cs == [addr] + tail;
      var d, rest, r := DecodeRecord(h, rank, h.records[addr]), Children(h, rank, next), Children(h, rank, addr);
      assert r == if d.Err? then Err(d.error) else if rest.Err? then Err(rest.error) else Ok([d.value] + rest.value);
      if d.Err? {
        assert FirstPanicAt(h, rank, Chain(h, rank, addr), 0, Children(h, rank, addr).error);
      } else if rest.Err? {
        ChildrenFirstPanic(h, rank, next);
        var k :| FirstPanicAt(h, rank, tail, k, rest.error);
        FirstPanicShift(h, rank, addr, tail, k, rest.error);
        assert FirstPanicAt(h, rank, Chain(h, rank, addr), k + 1, Children(h, rank, addr).error);
      }
    }
  }

  /** Every decoded node carries the text of its key buffer up to the first
      nul; a key that is not UTF-8 panics. */
  lemma DecodedKey(h: Heap, rank: map<Addr, nat>, rec: Record)
    requires WellFormed(h, rank) && Fits(h, rec)
    ensures var r := DecodeRecord(h, rank, rec);
      (r.Ok? ==> Encode(r.value.key) == BeforeNul(rec.key))
      && ((!exists s :: Encode(s) == BeforeNul(rec.key)) ==> r == Err(NonUtf8Key))
  {
    DecodeAcceptsExactlyEncodings(BeforeNul(rec.key));
    EncodeDecode(BeforeNul(rec.key));
  }

  /** The decoder builds only Int, String, Array and Object nodes, at every
      depth: Bool, IpPort and Float are never produced. */
  lemma {:induction false} DecodedVariants(h: Heap, rank: map<Addr, nat>, rec: Record)
    requires WellFormed(h, rank) && Fits(h, rec)
    ensures var r := DecodeRecord(h, rank, rec);
      r.Ok? ==> OnlyDecodedVariants(r.value)
    decreases Depth(rank, rec.childs), 2
  {
    if rec.tag == 3 || rec.tag == 6 {
      ChildrenVariants(h, rank, rec.childs);
      var r := DecodeRecord(h, rank, rec);
      if r.Ok? {
        assert r.value.data.items == Children(h, rank, rec.childs).value;
      }
    }
  }

  /** The same for every node of a decoded sibling chain. */
  lemma {:induction false} ChildrenVariants(h: Heap, rank: map<Addr, nat>, addr: Addr)
    requires WellFormed(h, rank) && (addr == NULL || addr in h.records)
    ensures var r := Children(h, rank, addr);
      r.Ok? ==> forall k :: 0 <= k < |r.value| ==> OnlyDecodedVariants(r.value[k])
    decreases Depth(rank, addr), 1
  {
    if addr != NULL {
      var rec := h.records[addr];
      DecodedVariants(h, rank, rec);
      ChildrenVariants(h, rank, rec.next);
      var r, rest := Children(h, rank, addr), Children(h, rank, rec.next);
      if r.Ok? {
        assert forall k :: 0 < k < |r.value| ==> r.value[k] == rest.value[k - 1];
      }
    }
  }

  /** Tag 0: an Int whose 8-byte storage is exactly the payload. */
  lemma IntRecord(h: Heap, rank: map<Addr, nat>, rec: Record)
    requires WellFormed(h, rank) && Fits(h, rec) && rec.tag == 0
    ensures var r := DecodeRecord(h, rank, rec);
      (r.Ok? <==> KeyText(rec).Ok?)
      && (r.Ok? ==> r.value.data.Int? && I64ToLe(r.value.data.i) == rec.payload)
  {
    I64BytesRoundTrip(rec.payload);
  }

  /** Tag 2: a String whose bytes are those of the pointed-to buffer before
      its nul; text that is not UTF-8 panics. */
  lemma StringRecord(h: Heap, rank: map<Addr, nat>, rec: Record)
    requires WellFormed(h, rank) && Fits(h, rec) && rec.tag == 2
    ensures var r, text := DecodeRecord(h, rank, rec), BeforeNul(h.strings[PayloadAddr(rec.payload)]);
      (r.Ok? <==> KeyText(rec).Ok? && exists s :: Encode(s) == text)
      && (r.Ok? ==> r.value.data.String? && Encode(r.value.data.s) == text)
      && (KeyText(rec).Ok? && r.Err? ==> r.error == NonUtf8String)
  {
    DecodeAcceptsExactlyEncodings(BeforeNul(h.strings[PayloadAddr(rec.payload)]));
    EncodeDecode(BeforeNul(h.strings[PayloadAddr(rec.payload)]));
  }

  /** Tags 3 and 6: an Array or an Object holding the decoded sibling chain
      below the record; a panic anywhere below is the record's panic. */
  lemma ContainerRecord(h: Heap, rank: map<Addr, nat>, rec: Record)
    requires WellFormed(h, rank) && Fits(h, rec) && (rec.tag == 3 || rec.tag == 6)
    ensures var r, items := DecodeRecord(h, rank, rec), Children(h, rank, rec.childs);
      (r.Ok? <==> KeyText(rec).Ok? && items.Ok?)
      && (r.Ok? ==> r.value.data == if rec.tag == 3 then Array(items.value) else Object(items.value))
      && (KeyText(rec).Ok? && items.Err? ==> r == Err(items.error))
  {
  }

  /** Array and Object are decoded alike: the same record read with tag 3
      and with tag 6 succeeds or fails together, with the same key and the
      same children, in the Array and Object variant respectively. */
  lemma ArrayAndObjectAlike(h: Heap, rank: map<Addr, nat>, rec: Record)
    requires WellFormed(h, rank) && Fits(h, rec)
    ensures var a, o := DecodeRecord(h, rank, rec.(tag := 3)), DecodeRecord(h, rank, rec.(tag := 6));
      (a.Ok? <==> o.Ok?)
      && (a.Ok? ==> a.value.key == o.value.key && a.value.data.Array? && o.value.data.Object?
                    && a.value.data.items == o.value.data.items)
      && (a.Err? ==> a.error == o.error)
  {
  }

  /** Every other tag, 1 (Bool), 4 (IpPort) and 5 (Float) included, panics. */
  lemma OtherTagsPanic(h: Heap, rank: map<Addr, nat>, rec: Record)
    requires WellFormed(h, rank) && Fits(h, rec)
    requires rec.tag != 0 && rec.tag != 2 && rec.tag != 3 && rec.tag != 6
    ensures var r := DecodeRecord(h, rank, rec);
      r == if KeyText(rec).Ok? then Err(UnknownTag(rec.tag)) else Err(NonUtf8Key)
  {
  }

  /** The decoded tree depends on the foreign memory only, not on which
      ranking witnesses that the memory is acyclic. */
  lemma {:induction false} DecodeRankIrrelevant(h: Heap, r1: map<Addr, nat>, r2: map<Addr, nat>, rec: Record)
    requires WellFormed(h, r1) && WellFormed(h, r2) && Fits(h, rec)
    ensures DecodeRecord(h, r1, rec) == DecodeRecord(h, r2, rec)
    decreases Depth(r1, rec.childs), 2
  {
    if rec.tag == 3 || rec.tag == 6 {
      ChildrenRankIrrelevant(h, r1, r2, rec.childs);
    }
  }

  /** The same for a sibling chain. */
  lemma {:induction false} ChildrenRankIrrelevant(h: Heap, r1: map<Addr, nat>, r2: map<Addr, nat>, addr: Addr)
    requires WellFormed(h, r1) && WellFormed(h, r2) && (addr == NULL || addr in h.records)
    ensures Children(h, r1, addr) == Children(h, r2, addr)
    decreases Depth(r1, addr), 1
  {
    if addr != NULL {
      DecodeRankIrrelevant(h, r1, r2, h.records[addr]);
      ChildrenRankIrrelevant(h, r1, r2, h.records[addr].next);
    }
  }

  /** Two memories hold the same strings and the same records at every
      address ranked below k. */
  ghost predicate AgreeBelow(h1: Heap, h2: Heap, rank: map<Addr, nat>, k: nat) {
    h1.strings == h2.strings
    && forall a :: a in h1.records && a in rank && rank[a] < k ==> a in h2.records && h2.records[a] == h1.records[a]
  }

  /** Decoding a record reads only records ranked below it: memories that
      agree there decode it alike. */
  lemma {:induction false} DecodeFrame(h1: Heap, h2: Heap, rank: map<Addr, nat>, k: nat, rec: Record)
    requires WellFormed(h1, rank) && WellFormed(h2, rank) && Fits(h1, rec) && Fits(h2, rec)
    requires AgreeBelow(h1, h2, rank, k) && Depth(rank, rec.childs) <= k
    ensures DecodeRecord(h1, rank, rec) == DecodeRecord(h2, rank, rec)
    decreases Depth(rank, rec.childs), 2
  {
    if rec.tag == 3 || rec.tag == 6 {
      ChildrenFrame(h1, h2, rank, k, rec.childs);
    }
  }

  /** The same for a sibling chain. */
  lemma {:induction false} ChildrenFrame(h1: Heap, h2: Heap, rank: map<Addr, nat>, k: nat, addr: Addr)
    requires WellFormed(h1, rank) && WellFormed(h2, rank) && AgreeBelow(h1, h2, rank, k)
    requires addr == NULL || (addr in h1.records && rank[addr] < k)
    ensures addr == NULL || addr in h2.records
    ensures Children(h1, rank, addr) == Children(h2, rank, addr)
    decreases Depth(rank, addr), 1
  {
    if addr != NULL {
      var rec := h1.records[addr];
      DecodeFrame(h1, h2, rank, k, rec);
      ChildrenFrame(h1, h2, rank, k, rec.next);
    }
  }
}
