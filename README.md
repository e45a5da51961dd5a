# highfleet-qol core in Dafny

This is a model of the quality-of-life mod for the game HighFleet: a DLL that
patches the running game's code. The model proves properties of the parts that do
the work.

- **The trampoline patcher** (`src/patchy.rs`). `Patch::patch_call` works in three steps:
  - It finds an unmapped address ("memory cave") within reach of a 32-bit jump. The candidates are the site's address plus or minus whole multiples of the allocation granularity.
  - It replaces a code site with `jmp rel32` to that cave, then fills the rest of the site with NOPs.
  - It writes a stub into the cave page. The stub may first replay the overwritten bytes. It then saves the caller-saved registers, makes an absolute call to the injected function, restores the registers and jumps back behind the site.

  `Patch::overwrite` splices literal bytes over a site.

  Host memory is an `array<byte>` indexed by absolute address, and the cave page is a fresh zero-filled `array<byte>`. `MemoryAreas::query` is the parameter `isMapped`. The `expect` panics and the `size - 5` underflow are error results, and memory keeps the bytes the source has already written when it stops.

  A small x86-64 encoder and decoder (`X64`) gives the byte constants a meaning. With it the model proves:
  - which registers the stub pushes and pops, and that the pops undo the pushes;
  - which XMM registers it stores and loads, in which stack slots;
  - that the stack comes back level;
  - where each jump lands.
- **The `std::map` traversal** (`src/structs/tll.rs`). Pointers to tree nodes are a datatype with a `Null` case. The sentinel is a node with `isSentinel` set.
  - `in_order_traverse` is a recursive method over a `seq` accumulator.
  - The `From` conversion is proved equal to the in-order value list.
  - That list has one value per entry. On a search tree it is sorted by key under the map's comparator, for any transitive comparator.
- **The loadout vector of `Plane::serialize`** (`src/structs/plane.rs`). Host memory is a sequence of pointer slots (`Option<T>`), and a `CVec` is a pair of slot indices where 0 stands for null. The loop is a `while` loop proved against a specification function.
- **The zoom hooks** (`src/zoom.rs`). The `static mut` globals are the fields of a class. `patch_zoom` and `patch_levels` call the patcher model. `set_zoom_level` writes host memory. `calc_zoom_value` reads host memory and the globals. `f32` values are an uninterpreted type parameter.
- **`Loadout::new`** (`src/plane.rs`): the null-terminated name buffer and the field initialisation.

The doc comment of `patch_call` says that `size` "must be at least 4". The code
needs at least 5: it writes the 5-byte jump first, then computes `size - 5`, which
underflows for smaller sizes. The model follows the code. For a size below 5, the
memory it ends with holds the whole 5-byte jump, which reaches past the site, and
the result is `SizeUnderflow`.

## Model

| member | source | states |
|---|---|---|
| Bytes.I32RoundTrip | src/patchy.rs:122-124 | the four bytes written for an `i32` displacement read back as the same signed value |
| Bytes.U64RoundTrip | src/patchy.rs:223-228 | the eight bytes written for a function pointer read back as that pointer |
| Bytes.U32RoundTrip | src/zoom.rs:66-70 | the four bytes of a `u32` store read back as the stored value |
| Bytes.SpliceContents | src/patchy.rs:233-236 | a copy puts `data` at the offset and leaves every other byte as it was |
| Bytes.SpliceAppend | src/patchy.rs:233-236 | two copies where the second starts at the offset the first advanced to are one copy of the concatenation |
| Bytes.SpliceRevert | src/patchy.rs:81-82 | writing the overwritten bytes back over a patch restores memory exactly, which is what undoing a patch relies on |
| X64.DecodeEncodeInsn | src/patchy.rs:16-79 | every instruction form the patcher emits decodes back to itself with its length, whatever bytes follow |
| X64.DecodeEncode | src/patchy.rs:16-79 | decoding the encoding of any instruction list gives back that list |
| X64.EncodeAppend | src/patchy.rs:139-176 | encoding distributes over the concatenation of code blocks |
| Patchy.CopyBytes | src/patchy.rs:204 | after `copy_nonoverlapping` memory is the old memory with `data` spliced in at the offset |
| Patchy.WriteData | src/patchy.rs:233-236 | `write_data` splices `data` in at the offset and advances the offset by its length |
| Patchy.WriteCall | src/patchy.rs:222-231 | `write_call` writes the eight call-prefix bytes, then the eight little-endian pointer bytes, and advances the offset by 16 |
| Patchy.FirstUnmapped | src/patchy.rs:244-246 | a found candidate is in the range, on the granularity grid and unmapped |
| Patchy.FirstUnmappedIsLeast | src/patchy.rs:244-246 | every candidate below the one found is mapped, or every candidate is when none is found |
| Patchy.SearchMemoryCave | src/patchy.rs:239-247 | the stepped search returns the lowest unmapped candidate, where the candidates are site − 2 GiB + k · granularity for k ≥ 1, below site + 2 GiB − granularity; it returns none when every candidate is mapped |
| Patchy.SiteJumpFits | src/patchy.rs:122-123 | a jump from the site to any cave the search can return fits in `i32`, so that `expect` never fires |
| Patchy.BackJumpFits | src/patchy.rs:173-174 | a jump from within the cave page back to the end of a site of at most a page fits in `i32` |
| Patchy.NearJump | src/patchy.rs:121-124 | the jump is five bytes: opcode `E9`, then the little-endian two's complement of `to − from − 5` |
| Patchy.WriteSiteJump | src/patchy.rs:120-128 | the site gets the jump to the cave and then `size − 5` NOPs; for a size under 5 only the jump is written, and the result is the underflow |
| Patchy.WriteSaves | src/patchy.rs:139-155 | the stub gets the overwritten bytes if asked for, then SAVE_RAX unless RAX returns, then SAVE_REGISTERS, then SAVE_XMM0 unless XMM0 returns, in that order and abutting |
| Patchy.WriteRestores | src/patchy.rs:160-169 | the stub gets LOAD_XMM0 unless XMM0 returns, then LOAD_REGISTERS, then LOAD_RAX unless RAX returns |
| Patchy.WriteStubBody | src/patchy.rs:138-169 | the page gets the saves, the absolute call and the restores from offset 0, and the offset ends at the body length |
| Patchy.WriteJump | src/patchy.rs:172-176 | the jump back is written when its displacement fits in `i32`; otherwise only the opcode is, and the result reports the overflow |
| Patchy.WriteStub | src/patchy.rs:138-176 | the page holds the whole stub, or the body and the lone opcode when the jump back does not fit |
| Patchy.PatchCall | src/patchy.rs:95-185 | final memory and result are those of `PatchCallOutcome`; on success the patch holds `size`, the site's original bytes and a fresh page at the cave with the stub in it |
| Patchy.PatchAt | src/patchy.rs:112-185 | the same, once the cave is known and the page is mapped there |
| Patchy.PatchAtCaveResults | src/patchy.rs:120-176 | with a cave, the result is the underflow exactly when `size < 5`, it is never the jump overflow for a site of at most a page, and a success is at that cave |
| Patchy.PatchCallResults | src/patchy.rs:110-184 | no cave is reported exactly when every candidate is mapped, and the underflow exactly when a cave exists and `size < 5`; for a site of at most a page, success happens exactly when both are avoided |
| Patchy.SitePatched | src/patchy.rs:120-128 | after patching, site byte 0 is `E9`, bytes 1–4 are the `i32` of `cave − site − 5`, bytes 5 to `size` are `0x90`, and no byte outside the site changed |
| Patchy.Overwrite | src/patchy.rs:187-219 | `overwrite` splices `data` over the site, returns the bytes that were there with `size = data.len()` and no page, and changes nothing else |
| PatchyCode.ConstantsEncode | src/patchy.rs:16-79 | each byte constant is the encoding of the instructions that its comment names; the call bytes and the jump opcode, followed by their operands, are the absolute call and `jmp rel32` |
| PatchyCode.SaveRegistersEncode | src/patchy.rs:23-48 | SAVE_REGISTERS is six pushes, `SUB RSP, 0x60` and five MOVDQU stores |
| PatchyCode.LoadRegistersEncode | src/patchy.rs:54-79 | LOAD_REGISTERS is five MOVDQU loads, `ADD RSP, 0x60` and six pops |
| PatchyCode.SaveRegistersPushes | src/patchy.rs:23-35 | SAVE_REGISTERS pushes RCX, RDX, R8, R9, R10, R11 in that order and pops nothing |
| PatchyCode.SaveRegistersStores | src/patchy.rs:36-47 | SAVE_REGISTERS stores XMM1–XMM5 at offsets 0x10–0x50 and loads nothing |
| PatchyCode.SaveRegistersStack | src/patchy.rs:23-48 | SAVE_REGISTERS lowers RSP by 6·8 + 0x60 bytes |
| PatchyCode.LoadRegistersPops | src/patchy.rs:65-78 | LOAD_REGISTERS pops R11, R10, R9, R8, RDX, RCX in that order and pushes nothing |
| PatchyCode.LoadRegistersLoads | src/patchy.rs:54-66 | LOAD_REGISTERS loads XMM1–XMM5 from offsets 0x10–0x50 and stores nothing |
| PatchyCode.LoadRegistersStack | src/patchy.rs:54-79 | LOAD_REGISTERS raises RSP by the same 6·8 + 0x60 bytes |
| PatchyCode.SaveStateEncodes | src/patchy.rs:141-155 | the saves are the replayed bytes followed by the encoding of the save instructions for the return type |
| PatchyCode.RestoreStateEncodes | src/patchy.rs:160-169 | the restores are the encoding of the restore instructions for the return type |
| PatchyCode.StubEncodes | src/patchy.rs:139-176 | the stub is the replayed bytes, then the encoding of: saves, the call to `function`, restores, and the jump back with the displacement `patch_call` computes |
| PatchyCode.StubDecodes | src/patchy.rs:139-176 | read back as code, the stub starts with the replayed bytes, then decodes to saves, call, restores and a jump that lands at `site + size` |
| PatchyCode.SiteDecodes | src/patchy.rs:120-128 | read back as code, the site is one jump landing at the cave, then `size − 5` NOPs |
| PatchyCode.StubReplaysSite | src/patchy.rs:259-272 | with `save_overwritten`, the first `size` bytes of the page are the site's original bytes |
| PatchyCode.SavePushes | src/patchy.rs:146-151 | the saves push RAX unless it carries the result, then RCX, RDX, R8–R11 |
| PatchyCode.RestorePops | src/patchy.rs:164-169 | the restores pop R11–R8, RDX, RCX, then RAX unless it carries the result |
| PatchyCode.SaveRestoreGprs | src/patchy.rs:146-169 | the restores pop exactly the reverse of what the saves push, and neither does the opposite |
| PatchyCode.SavedGprs | src/patchy.rs:146-151 | the pushed registers are exactly the Windows x64 caller-saved ones, minus RAX when it carries the result |
| PatchyCode.SaveStores | src/patchy.rs:150-155 | the saves store XMM1–XMM5, and XMM0 unless it carries the result, in their slots, and lower RSP by the pushes plus 0x60 |
| PatchyCode.RestoreLoads | src/patchy.rs:160-165 | the restores load the same slots and raise RSP by the same amount |
| PatchyCode.SaveRestoreXmms | src/patchy.rs:150-165 | every XMM slot stored is loaded back and no other, and the stack is level after saves and restores |
| PatchyCode.SavedXmms | src/patchy.rs:150-155 | the stored XMM registers are exactly XMM0–XMM5, minus XMM0 when it carries the result; XMM `x` goes to offset `16·x` |
| Tll.InOrderTraverse | src/structs/tll.rs:55-63 | the accumulator ends as its old contents followed by the values below the node in in-order; null and sentinel nodes append nothing |
| Tll.ToVec | src/structs/tll.rs:35-53 | the conversion gives the in-order values from the root for a sentinel, and from the node itself otherwise |
| Tll.InOrderLength | src/structs/tll.rs:55-63 | the list holds one value per non-null, non-sentinel node reachable through `left` and `right` |
| Tll.SentinelConversion | src/structs/tll.rs:40-45 | a sentinel's result depends only on its `parent`, and is empty when that is null or a sentinel |
| Tll.SearchTreeSorted | src/structs/tll.rs:60-62 | on a tree ordered by any transitive comparator (the `std::map` invariant), the traversal visits keys in strictly increasing order under that comparator |
| Tll.ContainerConversion | src/structs/tll.rs:3-9 | converting the sentinel of a container whose `size` counts its entries yields exactly `size` values |
| StructsPlane.LoadoutsVec | src/structs/plane.rs:24-38 | the loop yields the loadouts of the vector: none for a null `items` or `items_end`, else the pointees of the non-null slots from `items` up to `items_end` |
| StructsPlane.PresentAppend | src/structs/plane.rs:30-35 | slots are visited in order: the pointees of consecutive ranges concatenate |
| StructsPlane.PresentLength | src/structs/plane.rs:29-36 | one loadout per non-null slot |
| StructsPlane.PresentKeepsPointees | src/structs/plane.rs:31-33 | a loadout is in the list exactly when some slot points at it |
| StructsPlane.LoadoutsCount | src/structs/plane.rs:25-36 | a null pointer or `items >= items_end` gives none; otherwise the count is that of the non-null slots, at most `items_end − items` |
| StructsPlane.Serialize | src/structs/plane.rs:19-41 | the struct is named `Plane` and has exactly two fields, `_padding` and then `loadouts` with the collected list |
| Plane.ReadCString | src/plane.rs:5-6 | reading a C string gives the prefix before the first zero, and that zero follows it |
| Plane.NewLoadout | src/plane.rs:15-30 | the name buffer is `name` plus one zero byte, `length` and `max_length` are 0, `amount` is the argument, and both paddings are zero |
| Plane.NameRoundTrip | src/plane.rs:16-19 | the host reads back exactly `name` when it has no zero byte, and stops at the first one otherwise |
| Zoom.Globals.constructor | src/zoom.rs:3-5 | both bounds start at 3 and there are no levels |
| Zoom.Globals.PatchZoom | src/zoom.rs:21-43 | the bounds are stored first; then the 14-byte site (20 on 1.151) is hooked without replay or return register, with `patch_call`'s outcome |
| Zoom.Globals.PatchLevels | src/zoom.rs:45-60 | the levels are stored; then the 5-byte site is hooked with XMM0 as return register, with `patch_call`'s outcome |
| Zoom.Globals.SetZoomLevel | src/zoom.rs:62-71 | memory is the old memory with `MAX_ZOOM` written at its address and then `MIN_ZOOM` at its address |
| Zoom.SetZoomLevelWrites | src/zoom.rs:62-71 | after `set_zoom_level` both addresses read back the globals and every other byte is unchanged |
| Zoom.CalcZoom | src/zoom.rs:84-99 | the lookup as written: it fails only in arcade mode with the zoom level equal to the table length; any other arcade result is `1.0` or the table entry at the zoom level |
| Zoom.Globals.CalcZoomValue | src/zoom.rs:84-99 | outside arcade mode the host's value is returned; the hook fails exactly when in arcade mode the zoom level equals the number of levels |
| Zoom.CalcZoomCases | src/zoom.rs:84-99 | outside arcade the host's value; in arcade `1.0` above the table, the entry inside it; the only failure is a zoom level equal to the length |
| Zoom.CalcZoomOffByOne | src/zoom.rs:95-98 | a zoom level equal to the number of levels passes the `>` guard and indexes out of bounds |
| Zoom.CalcZoomFixed | src/zoom.rs:95-98 | with `>=` the lookup never fails: host value, table entry, or `1.0` from the length on |
| Zoom.CalcZoomFixedAgrees | src/zoom.rs:95-98 | wherever the code as written returns a value the corrected lookup returns the same; where it fails the corrected one gives `1.0` |

## Left out

- `VirtualProtect` around the site writes is left out. The protection change has no effect on the bytes. The source relaxes a fixed 0x100 bytes whatever `size` is.
- The failure of `MmapOptions::new(..)`/`map_mut` and of `make_exec` is left out. These are OS calls, and the page is always allocated here.
- Patchy.PatchAt: assumes the page is mapped exactly at the requested cave address. The source asks for that address with `with_address` but computes both jumps from `mmap.as_mut_ptr()`, wherever the OS placed the page.
- `MemoryAreas::query(..).unwrap()` is left out. A failing query panics, and the model only asks whether an area covers the address.
- Running the emitted code is left out. The model fixes the bytes and what they decode to, not the processor's state. It does not model stack alignment or the callee's shadow space at the injected call.
- Patchy.PatchCall: requires the stub to fit in its one page and `site ± 2 GiB` to lie within the 64-bit address space. The source checks neither: it would write past the page, or the subtraction in `search_memory_cave` would wrap.
- Patchy.PatchCall: requires memory to extend five bytes past the site. For a site shorter than the jump, the source writes those bytes before it panics.
- `unpatch` is named in a comment but defined nowhere. The model states only what undoing would rely on (`Bytes.SpliceRevert`).
- The inline assembly and the stale `patch_call` call in `src/dumpable.rs` are left out, as are `src/config.rs`, `src/lib.rs`, `src/guns.rs` and `src/shake.rs`. They are configuration, entry-point plumbing and fixed `overwrite` calls.
- `patch_planes` and `patch_add_plane` are left out. They call a host function through a transmuted address.
- Red-black tree insertion and rebalancing are left out. The repository has no such code.
- In the tree, the leaves' links back to the sentinel (a cyclic pointer structure) are left out. A null or sentinel child is where the traversal stops, so the model ends the tree there. `TllContainer` is a layout record with no code of its own. The model states only how its `size` relates to the conversion (`Tll.ContainerConversion`).
- `f32` arithmetic and the transmuted `REAL_CALC_ZOOM` call are left out. The host's value and `1.0` are parameters of `calc_zoom_value`.
- The `bool` read from `IS_IN_ARCADE` is modelled as "the byte is not zero". For a byte other than 0 or 1 the source's behaviour is undefined.
- Zoom.CalcZoomFixedAgrees: requires fewer than 2^32 levels. For a longer table `len() as u32` truncates, and the code as written (`Zoom.CalcZoom`, which models the truncation) returns `1.0` for some levels inside the table.
- Serializer errors (`?`) and the serializer itself are left out. `Serialize` returns the struct name and field list it hands over.
- The UTF-8 check of a Rust `&str` is left out. `NewLoadout` takes the name as bytes.
- Concurrent access to the `static mut` globals from game threads is left out. They are sequential state here.

## Findings

| source | as written | input that shows it | evidently intended | confidence | as-written member | corrected member |
|---|---|---|---|---|---|---|
| src/zoom.rs:95-98 | `if *zoom_value > ZOOM_LEVELS.len() as u32 { return 1.0 }` then `ZOOM_LEVELS[*zoom_value as usize]` | arcade flag set and zoom level equal to the number of configured levels, e.g. level 3 with three levels: the guard lets it through and the index panics | `>=`, giving `1.0` for every level past the table | not executed | Zoom.CalcZoom, Zoom.CalcZoomOffByOne | Zoom.CalcZoomFixed, Zoom.CalcZoomFixedAgrees |
