/** Path marshalling and the session with the foreign library: `PathOrNull`
    and `nereon` (src/c_nereon.rs). The library itself is an oracle: for a
    pair of marshalled paths it answers with a status, the context fields
    and the memory behind them. */
module Session {
  import opened Results
  import opened Machine
  import opened Utf8
  import opened Config
  import opened Foreign
  import opened Decoder

  /** A path handed to the library: the null pointer, or a nul-terminated
      byte buffer that the value owns for as long as the call needs it. */
  datatype PathOrNull = NullPtr | CPath(cstr: seq<Byte>)

  /** `PathOrNull::new`. An absent path is the null pointer; a present one
      must be UTF-8 (`Path::to_str`) without a nul byte (`CString::new`),
      and becomes its bytes followed by one nul. Either failure panics. */
  function NewPathOrNull(path: Option<seq<Byte>>): (r: Result<PathOrNull, Panic>)
    ensures path.None? ==> r == Ok(NullPtr)
    ensures path.Some? ==>
      (r.Ok? <==> (exists s :: Encode(s) == path.value) && 0 !in path.value)
    ensures path.Some? && r.Ok? ==>
      r.value == CPath(path.value + [0]) && BeforeNul(r.value.cstr) == path.value
    ensures path.Some? && r.Err? ==>
      r.error == if exists s :: Encode(s) == path.value then InteriorNul else NonUtf8Path
  {
    match path
    case None => Ok(NullPtr)
    case Some(p) =>
      DecodeAcceptsExactlyEncodings(p);
      EncodeDecode(p);
      match Decode(p)
      case None => Err(NonUtf8Path)
      case Some(text) =>
        var bytes := Encode(text);
        if 0 in bytes then Err(InteriorNul)
        else
          BeforeNulOfTerminated(bytes);
          Ok(CPath(bytes + [0]))
  }

  /** How `nereon_ctx_init` answers: its status, what it writes into the
      context record, and the memory the record's pointers lead to. */
  datatype InitReply = InitReply(status: Int32, meta: Addr, metaCount: Int32, cfg: Addr, memory: Heap)

  /** The calls made into the library. */
  datatype Event = Init(cfgPath: PathOrNull, metaPath: PathOrNull) | Finalize

  /** What the library promises of a successful answer: finite, acyclic,
      well-formed memory, and a tree pointer that is null or a record. */
  ghost predicate ReplySound(reply: InitReply) {
    reply.status != -1 ==>
      (exists rank :: WellFormed(reply.memory, rank))
      && (reply.cfg == NULL || reply.cfg in reply.memory.records)
  }

  /** The foreign library: a fixed answer for every pair of paths, and the
      record of the calls made into it. */
  class Library {
    const answer: (PathOrNull, PathOrNull) -> InitReply
    ghost var calls: seq<Event>

    constructor (answer: (PathOrNull, PathOrNull) -> InitReply)
      ensures this.answer == answer && calls == []
    {
      this.answer := answer;
      calls := [];
    }

    /** The library keeps its promise whatever paths it is given. */
    ghost predicate Sound() {
      forall p, q :: ReplySound(answer(p, q))
    }

    /** `nereon_ctx_init`: on success it fills in the context and opens its
        memory; its failure signal is the status -1. */
    method CtxInit(ctx: Ctx, cfgPath: PathOrNull, metaPath: PathOrNull) returns (status: Int32)
      requires !ctx.live
      modifies this`calls, ctx
      ensures var reply := answer(cfgPath, metaPath);
        status == reply.status
        && calls == old(calls) + [Init(cfgPath, metaPath)]
        && (status != -1 ==>
              ctx.live && ctx.meta == reply.meta && ctx.metaCount == reply.metaCount
              && ctx.cfg == reply.cfg && ctx.memory == reply.memory)
        && (status == -1 ==> !ctx.live)
    {
      var reply := answer(cfgPath, metaPath);
      status := reply.status;
      if status != -1 {
        ctx.meta, ctx.metaCount, ctx.cfg := reply.meta, reply.metaCount, reply.cfg;
        ctx.memory := reply.memory;
        ctx.live := true;
      }
      calls := calls + [Init(cfgPath, metaPath)];
    }

    /** `nereon_ctx_finalize`: releases the context's memory, after which
        none of it may be read. Calling it on a context that is not open is
        outside the library's contract. */
    method CtxFinalize(ctx: Ctx)
      requires ctx.live
      modifies this`calls, ctx`live
      ensures !ctx.live && calls == old(calls) + [Finalize]
    {
      ctx.live := false;
      calls := calls + [Finalize];
    }
  }

  /** What `nereon` returns other than a tree: the init failure (an
      `io::Error`), or a panic that unwinds out of it. */
  datatype Failure = InitFailed | Panicked(cause: Panic)

  /** The configuration held by the context's tree pointer. The record it
      points to is a defunct wrapper: only its first child, the real root,
      is decoded, and a null pointer or a childless wrapper means no
      configuration. */
  function Root(h: Heap, ghost rank: map<Addr, nat>, cfg: Addr): Result<Option<Cfg>, Panic>
    requires WellFormed(h, rank) && (cfg == NULL || cfg in h.records)
  {
    if cfg == NULL || h.records[cfg].childs == NULL then Ok(None)
    else
      match DecodeRecord(h, rank, h.records[h.records[cfg].childs])
      case Ok(c) => Ok(Some(c))
      case Err(e) => Err(e)
  }

  /** Lines 113-122 of `nereon`: follow the tree pointer to the wrapper
      and decode its first child through the open context. */
  method ReadRoot(ctx: Ctx, ghost rank: map<Addr, nat>) returns (root: Result<Option<Cfg>, Panic>)
    requires ctx.live && WellFormed(ctx.memory, rank) && (ctx.cfg == NULL || ctx.cfg in ctx.memory.records)
    ensures root == Root(ctx.memory, rank, ctx.cfg)
  {
    if ctx.cfg == NULL {
      return Ok(None);
    }
    var defunct := ctx.ReadCfg(ctx.cfg);
    if defunct.childs == NULL {
      return Ok(None);
    }
    var rec := ctx.ReadCfg(defunct.childs);
    var c := GetCfg(ctx, rec, rank);
    if c.Err? {
      return Err(c.error);
    }
    root := Ok(Some(c.value));
  }

  /** The root does not depend on the ranking that witnesses acyclicity. */
  lemma RootRankIrrelevant(h: Heap, r1: map<Addr, nat>, r2: map<Addr, nat>, cfg: Addr)
    requires WellFormed(h, r1) && WellFormed(h, r2) && (cfg == NULL || cfg in h.records)
    ensures Root(h, r1, cfg) == Root(h, r2, cfg)
  {
    if cfg != NULL && h.records[cfg].childs != NULL {
      DecodeRankIrrelevant(h, r1, r2, h.records[h.records[cfg].childs]);
    }
  }

  /** The wrapper's own key, tag, `next` and payload are ignored: replacing
      the wrapper by any record with the same first child leaves the
      result unchanged. */
  lemma WrapperFieldsIgnored(h: Heap, rank: map<Addr, nat>, cfg: Addr, w: Record)
    requires WellFormed(h, rank) && cfg in h.records && w.childs == h.records[cfg].childs
    requires WellFormed(Heap(h.records[cfg := w], h.strings), rank)
    ensures Root(Heap(h.records[cfg := w], h.strings), rank, cfg) == Root(h, rank, cfg)
  {
    var h2 := Heap(h.records[cfg := w], h.strings);
    var child := w.childs;
    if child != NULL {
      assert AgreeBelow(h, h2, rank, rank[cfg]);
      DecodeFrame(h, h2, rank, rank[cfg], h.records[child]);
    }
  }

  /** `nereon`: marshal both paths, open a context, decode the tree below
      the defunct wrapper, finalize the context and return the tree with an
      empty metadata list. A failed init returns an error without calling
      finalize; a panic while marshalling comes before init, and a panic
      while decoding unwinds past the finalize call. */
  method Nereon(lib: Library, cfg: Option<seq<Byte>>, meta: Option<seq<Byte>>)
    returns (r: Result<(Option<Cfg>, seq<Meta>), Failure>)
    requires lib.Sound()
    modifies lib`calls
    ensures match NewPathOrNull(cfg)
      case Err(e) => r == Err(Panicked(e)) && lib.calls == old(lib.calls)
      case Ok(cfgPath) =>
        match NewPathOrNull(meta)
        case Err(e) => r == Err(Panicked(e)) && lib.calls == old(lib.calls)
        case Ok(metaPath) =>
          var reply := lib.answer(cfgPath, metaPath);
          if reply.status == -1 then
            r == Err(InitFailed) && lib.calls == old(lib.calls) + [Init(cfgPath, metaPath)]
          else
            forall rank | WellFormed(reply.memory, rank) ::
              match Root(reply.memory, rank, reply.cfg)
              case Ok(root) =>
                r == Ok((root, [])) && lib.calls == old(lib.calls) + [Init(cfgPath, metaPath), Finalize]
              case Err(e) =>
                r == Err(Panicked(e)) && lib.calls == old(lib.calls) + [Init(cfgPath, metaPath)]
  {
    var ctx := new Ctx();
    var cfgPath := NewPathOrNull(cfg);
    if cfgPath.Err? {
      return Err(Panicked(cfgPath.error));
    }
    var metaPath := NewPathOrNull(meta);
    if metaPath.Err? {
      return Err(Panicked(metaPath.error));
    }
    var status := lib.CtxInit(ctx, cfgPath.value, metaPath.value);
    if status == -1 {
      return Err(InitFailed);
    }
    assert ReplySound(lib.answer(cfgPath.value, metaPath.value));
    ghost var rank :| WellFormed(ctx.memory, rank);
    forall other | WellFormed(ctx.memory, other)
      ensures Root(ctx.memory, other, ctx.cfg) == Root(ctx.memory, rank, ctx.cfg)
    {
      RootRankIrrelevant(ctx.memory, other, rank, ctx.cfg);
    }
    var root := ReadRoot(ctx, rank);
    if root.Err? {
      return Err(Panicked(root.error));
    }
    lib.CtxFinalize(ctx);
    r := Ok((root.value, []));
  }
  /** `nereon` with the context finalized on every
      path out of a successful init, the decoding panic included, and the
      panic is passed on only after that. */
  method NereonScoped(lib: Library, cfg: Option<seq<Byte>>, meta: Option<seq<Byte>>)
    returns (r: Result<(Option<Cfg>, seq<Meta>), Failure>)
    requires lib.Sound()
    modifies lib`calls
    ensures match NewPathOrNull(cfg)
      case Err(e) => r == Err(Panicked(e)) && lib.calls == old(lib.calls)
      case Ok(cfgPath) =>
        match NewPathOrNull(meta)
        case Err(e) => r == Err(Panicked(e)) && lib.calls == old(lib.calls)
        case Ok(metaPath) =>
          var reply := lib.answer(cfgPath, metaPath);
          if reply.status == -1 then
            r == Err(InitFailed) && lib.calls == old(lib.calls) + [Init(cfgPath, metaPath)]
          else
            lib.calls == old(lib.calls) + [Init(cfgPath, metaPath), Finalize]
            && forall rank | WellFormed(reply.memory, rank) ::
                 match Root(reply.memory, rank, reply.cfg)
                 case Ok(root) => r == Ok((root, []))
                 case Err(e) => r == Err(Panicked(e))
  {
    var ctx := new Ctx();
    var cfgPath := NewPathOrNull(cfg);
    if cfgPath.Err? {
      return Err(Panicked(cfgPath.error));
    }
    var metaPath := NewPathOrNull(meta);
    if metaPath.Err? {
      return Err(Panicked(metaPath.error));
    }
    var status := lib.CtxInit(ctx, cfgPath.value, metaPath.value);
    if status == -1 {
      return Err(InitFailed);
    }
    assert ReplySound(lib.answer(cfgPath.value, metaPath.value));
    ghost var rank :| WellFormed(ctx.memory, rank);
    forall other | WellFormed(ctx.memory, other)
      ensures Root(ctx.memory, other, ctx.cfg) == Root(ctx.memory, rank, ctx.cfg)
    {
      RootRankIrrelevant(ctx.memory, other, rank, ctx.cfg);
    }
    var root := ReadRoot(ctx, rank);
    if root.Err? {
      lib.CtxFinalize(ctx);
      return Err(Panicked(root.error));
    }
    lib.CtxFinalize(ctx);
    r := Ok((root.value, []));
  }

  /** Memory whose real root, below the wrapper at address 1, is a record
      with tag 1 (Bool) at address 2; both keys are empty. */
  function BoolRootMemory(): Heap {
    var key: KeyBuf := seq(128, _ => 0);
    var payload: Payload := [0, 0, 0, 0, 0, 0, 0, 0];
    Heap(map[1 := Record(key, 6, 2, NULL, payload), 2 := Record(key, 1, NULL, NULL, payload)], map[])
  }

  /** That memory is well-formed, and its root panics on the Bool tag. */
  lemma BoolRootPanics()
    ensures WellFormed(BoolRootMemory(), map[1 := 1, 2 := 0])
    ensures Root(BoolRootMemory(), map[1 := 1, 2 := 0], 1) == Err(UnknownTag(1))
  {
    var h := BoolRootMemory();
    assert h.records[1].key[0] == 0 && h.records[2].key[0] == 0;
    assert BeforeNul(h.records[2].key) == [];
  }

  /** A library that, whatever the paths, opens a context on BoolRootMemory. */
  function BoolRootLibrary(): (PathOrNull, PathOrNull) -> InitReply {
    (p: PathOrNull, q: PathOrNull) => InitReply(0, NULL, 0, 1, BoolRootMemory())
  }

  /** The configuration path "a" marshals to its byte followed by a nul. */
  lemma PathA()
    ensures NewPathOrNull(Some([0x61])) == Ok(CPath([0x61, 0]))
  {
    var a: string := ['a'];
    assert EncodeChar('a') == [0x61];
    assert Encode(a) == EncodeChar('a') + Encode([]);
    assert Encode(a) == [0x61];
    var p: seq<Byte> := [0x61];
    assert 0 !in p;
    assert NewPathOrNull(Some(p)).Ok?;
    assert p + [0] == [0x61, 0];
  }

  /** `nereon` as written, run against a tree holding a Bool node: the panic
      leaves the library with an init and no finalize. */
  method BoolRootLeaksContext() returns (r: Result<(Option<Cfg>, seq<Meta>), Failure>, ghost calls: seq<Event>)
    ensures r == Err(Panicked(UnknownTag(1)))
    ensures calls == [Init(CPath([0x61, 0]), NullPtr)]
  {
    BoolRootPanics();
    PathA();
    var lib := new Library(BoolRootLibrary());
    assert lib.Sound();
    r := Nereon(lib, Some([0x61]), None);
    calls := lib.calls;
  }

  /** The corrected `NereonScoped` on the same tree reports the same panic
      and has finalized the context first. */
  method BoolRootReleasesContext() returns (r: Result<(Option<Cfg>, seq<Meta>), Failure>, ghost calls: seq<Event>)
    ensures r == Err(Panicked(UnknownTag(1)))
    ensures calls == [Init(CPath([0x61, 0]), NullPtr), Finalize]
  {
    BoolRootPanics();
    PathA();
    var lib := new Library(BoolRootLibrary());
    assert lib.Sound();
    r := NereonScoped(lib, Some([0x61]), None);
    calls := lib.calls;
  }
}
