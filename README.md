# nereon configuration decoder, modelled in Dafny

`rust-nereon` binds a C library that parses HCL configuration files. The
library returns a tree of fixed-layout C records. Each record has a 128-byte
key buffer, a type tag, a first-child pointer, a next-sibling pointer and an
8-byte payload. The Rust side (`src/c_nereon.rs`) copies that tree into an
owned `Cfg` tree (`src/lib.rs`) and then releases the library's context. This
project models the steps of that copy:

- **Path marshalling** (`Session.NewPathOrNull`). An optional path becomes a
  null pointer or a nul-terminated buffer. A path that is not UTF-8, or that
  holds a nul byte, panics.
- **The session** (`Session.Library`, `Foreign.Ctx`, `Session.Nereon`). Init
  is an oracle: for each pair of marshalled paths it gives a status, the
  context fields and the memory behind them. A status of -1 is an error.
  After a successful init the tree is decoded, finalize is called, and the
  result is returned with an empty metadata list. The memory can be read only
  while the context is open. `Library.calls` records every init and finalize.
- **Root unwrapping** (`Session.Root`). The tree pointer leads to a defunct
  wrapper record, and only its first child is decoded.
- **Tag dispatch and sibling walk** (`Decoder.DecodeRecord`,
  `Decoder.Children`, and the methods `Decoder.GetCfg` and
  `Decoder.GetCfgChilds` that implement them). Tag 0 becomes an Int, tag 2
  a String, tag 3 an Array and tag 6 an Object. Every other tag panics.

Foreign memory is two maps. `records` maps non-null addresses to records.
`strings` maps addresses to nul-terminated buffers. Following a raw pointer
is a map lookup. The library promises a finite, acyclic tree, and the model
states this as `Foreign.WellFormed(h, rank)`: every link goes to a record of
lower rank. The rank is a ghost witness, and the decoded tree is proved not to
depend on which witness is chosen. A panic is modelled as an `Err` that
carries its cause (`Decoder.Panic`). It aborts the whole decode, so no
partial tree is ever produced.

Bytes are `Machine.Byte`. The model assumes a little-endian 64-bit target, so
the 8-byte payload is read little-endian: as an `i64` for tag 0, and as a
64-bit pointer for tag 2. Rust checks UTF-8 with `to_str`. The model
does the same with `Utf8.Decode`, which follows Rust's rules (shortest forms
only, no surrogates, nothing above U+10FFFF) and is proved to invert
`Utf8.Encode`.

Two points where the code does less than its types suggest:

- `CfgData` declares Bool, IpPort and Float (src/lib.rs:4-12), but `get_cfg`
  panics on tags 1, 4 and 5 (src/c_nereon.rs:160). The model panics on them
  too, and `Decoder.DecodedVariants` proves that Bool, IpPort and Float are
  never produced.
- `nereon` releases the context with `nereon_ctx_finalize` on its success
  path (src/c_nereon.rs:124). A panic during decoding skips that call, and
  `Ctx` has no `Drop`. See Findings.

## Model

| member | source | states |
|---|---|---|
| `Foreign.WellFormed` | src/c_nereon.rs:34-43 | The library's promise about its memory: null is neither a record nor a string address. Every link of a record is null or another record of lower rank, so the tree is finite and acyclic. Every key buffer and string buffer holds a nul, and a tag-2 payload points at a string buffer. |
| `Session.Library.Sound` | src/c_nereon.rs:11-15 | Every init that does not return -1 opens memory that is well-formed for some rank, with a tree pointer that is null or a record address. |
| `Foreign.PayloadAddr` | src/c_nereon.rs:147-154 | The pointer stored in a tag-2 payload is its 8 bytes read little-endian, so it is below 2^64. |
| `Machine.I64FromLe` | src/c_nereon.rs:136-144 | The `i64` read from an 8-byte payload: the little-endian value taken as two's complement. `Machine.I64RoundTrip` and `Machine.I64BytesRoundTrip` prove it is a bijection with `I64ToLe`. |
| `Utf8.Decode` | src/c_nereon.rs:78 | Rust's strict UTF-8 check (`to_str`, also at lines 131-132 and 156): the text a byte string encodes, or None. `Utf8.DecodeEncode`, `Utf8.EncodeDecode` and `Utf8.DecodeAcceptsExactlyEncodings` characterise it against `Encode`. |
| `Decoder.KeyText` | src/c_nereon.rs:130-133 | A record's key. On success it is the text whose bytes are the key buffer before its first nul, and its only failure is NonUtf8Key. |
| `Decoder.DecodeRecord` | src/c_nereon.rs:129-167 | `get_cfg` as a function: decode the key first, then dispatch on the tag. `Decoder.IntRecord`, `Decoder.StringRecord`, `Decoder.ContainerRecord`, `Decoder.OtherTagsPanic` and `Decoder.DecodedKey` state each case. |
| `Decoder.Children` | src/c_nereon.rs:169-179 | `get_cfg_childs` as a function: the trees of the sibling chain in order, or the first panic. `Decoder.ChildrenFollowChain` and `Decoder.ChildrenFirstPanic` state it against `Decoder.Chain`. |
| `Session.Root` | src/c_nereon.rs:113-122 | No configuration for a null tree pointer or a childless wrapper. Otherwise it is the decoding of the wrapper's first child, or that child's panic. `Session.ReadRoot`, `Session.WrapperFieldsIgnored` and `Session.RootRankIrrelevant` are stated against it. |
| `Session.NewPathOrNull` | src/c_nereon.rs:75-89 | None gives the null pointer. Some(p) succeeds exactly when p is UTF-8 and holds no nul byte, and then gives p's bytes followed by one nul, which read back up to the nul give p. A non-UTF-8 path panics with NonUtf8Path, and a UTF-8 path holding a nul panics with InteriorNul. |
| `Foreign.Ctx.constructor` | src/c_nereon.rs:96-100 | The context record starts with null pointers, a zero count and no open memory. |
| `Session.Library.CtxInit` | src/c_nereon.rs:11-15 | Init returns the library's status and logs one Init call. On any status other than -1 it fills the context fields and opens the memory. On -1 the memory stays closed. |
| `Session.Library.CtxFinalize` | src/c_nereon.rs:16 | Finalize needs an open context, closes it and logs one Finalize call. |
| `Foreign.Ctx.ReadCfg` | src/c_nereon.rs:117-119 | A record can be read only while the context is open and only at an address holding a record, and the read returns that record. |
| `Foreign.Ctx.ReadCStr` | src/c_nereon.rs:156 | A string buffer can be read only while the context is open, and the read returns its bytes before the first nul. |
| `Session.Nereon` | src/c_nereon.rs:92-127 | A marshalling panic happens before init, with no library call. If init returns -1, the result is Err(InitFailed) and the only call is Init. Otherwise, for every rank that witnesses acyclicity: a successful root decode gives Ok((root, [])) with calls Init then Finalize, and a decode panic gives that panic with Finalize never called. |
| `Session.ReadRoot` | src/c_nereon.rs:113-122 | Following the tree pointer through the open context gives exactly Root: no configuration for a null pointer or a childless wrapper, and otherwise the decoding of the wrapper's first child, panic included. |
| `Session.WrapperFieldsIgnored` | src/c_nereon.rs:115-122 | Replacing the defunct wrapper with any record that has the same first child, and that keeps the memory well-formed under the same rank, leaves the decoded root unchanged. Keeping it well-formed means the new record has a nul in its key, a null or lower-ranked `next`, and a valid string pointer if its tag is 2. So the wrapper's key, tag, next and payload are ignored. |
| `Session.RootRankIrrelevant` | src/c_nereon.rs:113-122 | The decoded root depends only on the foreign memory and not on the acyclicity witness, so decoding is deterministic. |
| `Decoder.GetCfg` | src/c_nereon.rs:129-167 | Decoding a record through the open context gives exactly DecodeRecord of that record, panics included. |
| `Decoder.GetCfgChilds` | src/c_nereon.rs:169-179 | The loop over childs, next, next, ... up to null gives exactly Children of the first child, and the first panic met ends the walk. |
| `Decoder.Chain` | src/c_nereon.rs:171-177 | The sibling chain is empty exactly when the first pointer is null. Otherwise it starts at that pointer, each address is followed by its record's next, and the last record's next is null. |
| `Decoder.ChildrenFollowChain` | src/c_nereon.rs:169-179 | The decoded child list succeeds exactly when every record on the chain decodes. It then has one entry per chain record, in chain order, each equal to that record's decoding. |
| `Decoder.ChildrenFirstPanic` | src/c_nereon.rs:173-176 | A failing child list fails with the panic of the first failing record on the chain, and every record before that one decodes. |
| `Decoder.DecodedKey` | src/c_nereon.rs:130-133 | A decoded node's key is the UTF-8 text whose bytes are the key buffer up to its first nul. A key buffer that is not UTF-8 panics with NonUtf8Key. |
| `Decoder.IntRecord` | src/c_nereon.rs:135-145 | Tag 0 succeeds exactly when the key does, and gives an Int whose 8-byte little-endian two's-complement storage is exactly the payload. |
| `Decoder.StringRecord` | src/c_nereon.rs:146-157 | Tag 2 succeeds exactly when the key and the pointed-to text are UTF-8, and gives a String whose bytes are the buffer up to its first nul. Text that is not UTF-8 panics with NonUtf8String. |
| `Decoder.ContainerRecord` | src/c_nereon.rs:158-159 | Tags 3 and 6 succeed exactly when the key and the child list do, and give Array or Object of the decoded child list. A panic anywhere below the record is the record's panic. |
| `Decoder.ArrayAndObjectAlike` | src/c_nereon.rs:158-159 | The same record read with tag 3 and with tag 6 succeeds or fails together, with the same key and the same children, and differs only in the variant. |
| `Decoder.OtherTagsPanic` | src/c_nereon.rs:160 | Any tag other than 0, 2, 3 and 6, including 1, 4 and 5, panics: with UnknownTag(tag) when the key is valid, and with NonUtf8Key otherwise. |
| `Decoder.DecodedVariants` | src/lib.rs:4-12 | Every successfully decoded tree uses only the Int, String, Array and Object variants at every depth, so Bool, IpPort and Float are never produced. |
| `Decoder.ChildrenVariants` | src/c_nereon.rs:158-159 | Every node of a decoded child list uses only the Int, String, Array and Object variants. |
| `Decoder.DecodeRankIrrelevant` | src/c_nereon.rs:129-167 | A record's decoding does not depend on the acyclicity witness. |
| `Decoder.DecodeFrame` | src/c_nereon.rs:129-179 | Decoding a record reads only the strings and the records ranked below it, so two memories that agree on those decode it alike. |
| `Decoder.ChildrenFrame` | src/c_nereon.rs:169-179 | The same frame property for a sibling chain. |
| `Foreign.BeforeNul` | src/c_nereon.rs:130 | The result is the longest nul-free prefix of the buffer: the buffer's bytes up to, but not including, its first nul. |
| `Foreign.BeforeNulOfTerminated` | src/c_nereon.rs:78 | Nul-free bytes followed by one nul read back, up to the nul, as the same bytes. |
| `Machine.I64RoundTrip` | src/c_nereon.rs:136-144 | Storing an i64 in 8 little-endian bytes and copying them back gives the same i64. |
| `Machine.I64BytesRoundTrip` | src/c_nereon.rs:136-144 | Every 8-byte payload is the storage of the i64 read from it, so no payload bits are lost or invented. |
| `Machine.LeValueOfLeBytes` | src/c_nereon.rs:147-154 | Writing a value that fits in n bytes and reading it back gives the value, as when a pointer is copied through the payload. |
| `Machine.LeBytesOfLeValue` | src/c_nereon.rs:147-154 | Reading n bytes and writing the value back gives the same bytes. |
| `Utf8.DecodeEncode` | src/c_nereon.rs:130-133 | Decoding the bytes of any text gives that text back. |
| `Utf8.EncodeDecode` | src/c_nereon.rs:156 | Whatever byte string Decode accepts, it decodes to the text whose bytes those are. |
| `Utf8.DecodeAcceptsExactlyEncodings` | src/c_nereon.rs:78 | Decode accepts exactly the byte strings that encode some text, that is, the well-formed UTF-8 strings. |
| `Session.NereonScoped` | src/c_nereon.rs:113-126 | Corrected `nereon`. After a successful init the calls are exactly Init then Finalize on every path, and the result is the decoded root or the decode panic. |
| `Session.BoolRootPanics` | src/c_nereon.rs:160 | A concrete well-formed tree whose real root has tag 1 decodes to the panic UnknownTag(1). |
| `Session.PathA` | src/c_nereon.rs:75-83 | The configuration path "a" marshals to its one byte followed by a nul. |
| `Session.BoolRootLeaksContext` | src/c_nereon.rs:120-124 | `nereon` as written, run with the path "a" on that tree, panics after one Init call (with the marshalled path "a" and a null metadata path) and no Finalize call. |
| `Session.BoolRootReleasesContext` | src/c_nereon.rs:120-124 | With the same path and tree, `NereonScoped` reports the same panic after calls Init then Finalize. |

## Left out

- The internals of `nereon_ctx_init` and `nereon_ctx_finalize` (HCL parsing, file I/O and allocation) run inside the C library. Init is an oracle over the two marshalled paths. Finalize is a state change plus a logged call.
- `libc::puts(cfg.ptr)` at src/c_nereon.rs:104 is console output and is left out. When no configuration path is given it is `puts(NULL)`, which is undefined behaviour. The model does not follow that case, and `Session.Nereon` treats the no-path call as if `puts` were absent.
- The `repr(C)` byte layout, `ptr::read`, `mem::uninitialized` and pointer sizes are replaced by the two address maps. The model fixes a little-endian target with 64-bit pointers.
- The `f64` type of the payload field is not modelled. The payload is 8 opaque bytes, and the `Float` variant holds an uninterpreted 32-bit pattern that is never produced.
- The `Meta` and `Data` C structs and the unused size constants are not modelled. The context's metadata pointer and count are stored but never read, as in the source. `Config.Meta` is the empty Rust struct, and it appears only in the always-empty metadata list.
- The tests that read `./testdata/*.hcl` and the `2 + 2` test are not modelled.
- The source does not check for dangling pointers, missing nul terminators or cycles, because the library promises well-formed memory. The model takes that promise as `Foreign.WellFormed` and `Session.Library.Sound` instead of detecting violations.
- The lifetime link between a `CString` and its pointer is not modelled. `PathOrNull` is a value that holds its bytes, so aliasing and the temporary that holds the metadata path are out of scope.
- Panics are modelled as `Err` results. Unwinding, destructors and a process abort on panic are not modelled.
- The library serves one context per `nereon` call. Several contexts open at once are not modelled.

## Findings

| source | as written | input that shows it | evidently intended | confidence | as-written member | corrected member |
|---|---|---|---|---|---|---|
| src/c_nereon.rs:113-124 | A panic in `get_cfg` (a tag other than 0, 2, 3 or 6, or a key or string that is not UTF-8) unwinds past `nereon_ctx_finalize`. `Ctx` has no `Drop`, so the context is never finalized. | The configuration path "a" (`Session.PathA`), no metadata path, and a tree whose real root is a record with tag 1 (Bool), as in `Session.BoolRootMemory` | The context is finalized on every path after a successful init, decode panics included, and the panic is passed on after that | not executed; the model shows the missing call | `Session.BoolRootLeaksContext` | `Session.NereonScoped` |
