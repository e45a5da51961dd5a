/** The trampoline patcher of src/patchy.rs: it redirects a code site of the
    host to an out-of-line stub that saves the caller-saved registers, calls an
    injected function, restores the registers and jumps back behind the site;
    or it splices literal bytes over a site. Host code memory is an array of
    bytes indexed by absolute address; the stub lives in a fresh page. */
module Patchy {
  import opened Bytes
  import opened PatchyConstants
  import W = Wrappers
  import X64

  /** Which register the injected function returns its result in; that register
      is neither saved nor restored around the call. */
  datatype ReturnType = None | Rax | Xmm0

  /** Half of the reach of a 32-bit relative jump. */
  const TWO_GIB: nat := 0x8000_0000
  /** `MmapOptions::allocation_granularity()` and `MmapOptions::page_size()` on
      Windows x64. */
  const ALLOCATION_GRANULARITY: nat := 0x1_0000
  const PAGE_SIZE: nat := 0x1000

  /** The executable page holding a stub. */
  datatype Mmap = Mmap(address: usize, bytes: array<byte>)

  /** An installed patch: how many bytes of the site it replaced, what they
      were, and the stub page if there is one. */
  datatype Patch = Patch(size: nat, overwritten: seq<byte>, mmap: W.Option<Mmap>)

  /** The panics of `patch_call`: no cave (`expect("No memory cave found")`),
      a displacement outside `i32` (`expect("Jump offset greater than 32 bits")`),
      and the `usize` underflow of `size - 5`. */
  datatype PatchError = NoCaveFound | JumpOutOfRange | SizeUnderflow

  // ---- Copies into memory ----

  /** `copy_nonoverlapping(data, dst + at, |data|)`. */
  method CopyBytes(dst: array<byte>, at: nat, data: seq<byte>)
    requires at + |data| <= dst.Length
    modifies dst
    ensures dst[..] == Splice(old(dst[..]), at, data)
  {
    forall i | 0 <= i < |data| {
      dst[at + i] := data[i];
    }
    assert dst[..] == old(dst[..])[..at] + data + old(dst[..])[at + |data|..];
  }

  /** `write_data`: copies `data` to `offset` and advances the offset past
      it. The base pointer of the source is index 0 of `dst`. */
  method WriteData(dst: array<byte>, offset: nat, data: seq<byte>) returns (next: nat)
    requires offset + |data| <= dst.Length
    modifies dst
    ensures dst[..] == Splice(old(dst[..]), offset, data)
    ensures next == offset + |data|
  {
    CopyBytes(dst, offset, data);
    next := offset + |data|;
  }

  /** `write_call`: the absolute-call prefix, then the eight bytes of the
      function pointer, advancing the offset by sixteen. */
  method WriteCall(dst: array<byte>, offset: nat, target: u64) returns (next: nat)
    requires offset + 16 <= dst.Length
    modifies dst
    ensures dst[..] == Splice(old(dst[..]), offset, CALL_BYTES + U64Bytes(target))
    ensures next == offset + 16
  {
    ghost var before := dst[..];
    var pointer := U64Bytes(target);
    CopyBytes(dst, offset, CALL_BYTES);
    next := offset + |CALL_BYTES|;
    CopyBytes(dst, next, pointer);
    next := next + |pointer|;
    SpliceAppend(before, offset, CALL_BYTES, pointer);
  }

  // ---- The memory cave ----

  /** The first candidate of `search_memory_cave`: 2 GiB below the site, one
      allocation granule up. */
  function CaveLower(site: int): int { site - TWO_GIB + ALLOCATION_GRANULARITY }

  /** The exclusive end of the candidate range. */
  function CaveUpper(site: int): int { site + TWO_GIB - ALLOCATION_GRANULARITY }

  /** The first of `a`, `a + G`, `a + 2G`, ... below `upper` that no memory
      area covers (G the allocation granularity). */
  function FirstUnmapped(a: int, upper: int, isMapped: int -> bool): (r: W.Option<int>)
    ensures r.Some? ==> a <= r.value < upper && !isMapped(r.value)
    ensures r.Some? ==> (r.value - a) % ALLOCATION_GRANULARITY == 0
    decreases upper - a
  {
    if a >= upper then W.None
    else if !isMapped(a) then W.Some(a)
    else
      var r := FirstUnmapped(a + ALLOCATION_GRANULARITY, upper, isMapped);
      assert r.Some? ==> r.value - a == (r.value - (a + ALLOCATION_GRANULARITY)) + ALLOCATION_GRANULARITY;
      r
  }

  /** The cave `search_memory_cave(site)` finds. */
  function MemoryCave(site: int, isMapped: int -> bool): W.Option<int>
  {
    FirstUnmapped(CaveLower(site), CaveUpper(site), isMapped)
  }

  /** Every candidate before the one found (or every candidate, when none is
      found) is mapped: the cave is the lowest free candidate. */
  lemma {:induction false} FirstUnmappedIsLeast(a: int, upper: int, isMapped: int -> bool, c: int)
    requires a <= c < upper && (c - a) % ALLOCATION_GRANULARITY == 0
    requires FirstUnmapped(a, upper, isMapped).Some? ==> c < FirstUnmapped(a, upper, isMapped).value
    ensures isMapped(c)
    decreases upper - a
  {
    if c != a {
      assert isMapped(a);
      assert (c - (a + ALLOCATION_GRANULARITY)) % ALLOCATION_GRANULARITY == 0 by {
        assert c - (a + ALLOCATION_GRANULARITY) == (c - a) - ALLOCATION_GRANULARITY;
      }
      FirstUnmappedIsLeast(a + ALLOCATION_GRANULARITY, upper, isMapped, c);
    }
  }

  /** `search_memory_cave` as the loop `find` runs over the stepped range.
      `isMapped(p)` stands for `MemoryAreas::query(p)` returning an area. */
  method SearchMemoryCave(address: usize, isMapped: int -> bool) returns (r: W.Option<int>)
    requires TWO_GIB <= address && address + TWO_GIB < 0x1_0000_0000_0000_0000
    ensures r == MemoryCave(address, isMapped)
  {
    var lower := address - TWO_GIB + ALLOCATION_GRANULARITY;
    var upper := address + TWO_GIB - ALLOCATION_GRANULARITY;
    var candidate := lower;
    while candidate < upper
      invariant FirstUnmapped(candidate, upper, isMapped) == MemoryCave(address, isMapped)
      decreases upper - candidate
    {
      if !isMapped(candidate) {
        return W.Some(candidate);
      }
      candidate := candidate + ALLOCATION_GRANULARITY;
    }
    return W.None;
  }

  /** The displacement of `jmp rel32` at `from` that lands at `to`. */
  function JumpOffset(from: int, to: int): int { to - (from + 5) }

  /** A cave found for `site` is within reach of a 32-bit jump from the site:
      the first `expect("Jump offset greater than 32 bits")` cannot fire. */
  lemma SiteJumpFits(site: int, cave: int)
    requires CaveLower(site) <= cave < CaveUpper(site)
    ensures FitsI32(JumpOffset(site, cave))
  {
  }

  /** A jump from the first page of a cave back to the end of a site shorter
      than a page fits in 32 bits: for such sites the second `expect` cannot
      fire either. */
  lemma BackJumpFits(site: int, size: nat, cave: int, pos: nat)
    requires CaveLower(site) <= cave < CaveUpper(site)
    requires size <= PAGE_SIZE && pos + 5 <= PAGE_SIZE
    ensures FitsI32(JumpOffset(cave + pos, site + size))
  {
  }

  // ---- The patched site and the stub ----

  /** `s` if `c` holds, else nothing: a write the source makes conditionally. */
  function When(c: bool, s: seq<byte>): (r: seq<byte>)
    ensures r == [] || r == s
    ensures |r| == if c then |s| else 0
  {
    if c then s else []
  }

  /** `jmp rel32` at `from` to `to`: the opcode and the displacement. */
  function NearJump(from: int, to: int): (r: seq<byte>)
    requires FitsI32(JumpOffset(from, to))
    ensures |r| == 5 && r[0] == 0xE9
    ensures r[1..] == I32Bytes(JumpOffset(from, to))
  {
    NEAR_JUMP + I32Bytes(JumpOffset(from, to))
  }

  /** What `patch_call` leaves at the site: a jump to the cave and a NOP slide
      over the rest of the `size` overwritten bytes. */
  function SiteJump(site: int, size: nat, cave: int): (r: seq<byte>)
    requires 5 <= size && FitsI32(JumpOffset(site, cave))
    ensures |r| == size
  {
    NearJump(site, cave) + seq(size - 5, _ => NOP)
  }

  /** What the stub does before the call: optionally replay the overwritten
      bytes, then save RAX unless it carries the result, the other caller-saved
      registers, and XMM0 unless it carries the result. */
  function SaveState(overwritten: seq<byte>, save: bool, ret: ReturnType): (r: seq<byte>)
    ensures |r| == SaveLength(|overwritten|, save, ret)
  {
    When(save, overwritten) + When(ret != Rax, SAVE_RAX) + SAVE_REGISTERS + When(ret != Xmm0, SAVE_XMM0)
  }

  /** What the stub does after the call: the saves undone in reverse order. */
  function RestoreState(ret: ReturnType): (r: seq<byte>)
    ensures |r| == RestoreLength(ret)
  {
    When(ret != Xmm0, LOAD_XMM0) + LOAD_REGISTERS + When(ret != Rax, LOAD_RAX)
  }

  /** The stub up to its final jump, in the order `patch_call` writes it. */
  function StubBody(overwritten: seq<byte>, save: bool, ret: ReturnType, target: u64): (r: seq<byte>)
    ensures |r| == StubLength(|overwritten|, save, ret) - 5
  {
    SaveState(overwritten, save, ret) + (CALL_BYTES + U64Bytes(target)) + RestoreState(ret)
  }

  /** The number of bytes the register saves take, for a site of `size`
      bytes. */
  function SaveLength(size: nat, save: bool, ret: ReturnType): nat
  {
    (if save then size else 0) + (if ret != Rax then 1 else 0) + 44 + (if ret != Xmm0 then 5 else 0)
  }

  /** The number of bytes the register restores take. */
  function RestoreLength(ret: ReturnType): nat
  {
    (if ret != Xmm0 then 5 else 0) + 44 + (if ret != Rax then 1 else 0)
  }

  /** The number of stub bytes `patch_call` writes for a site of `size` bytes:
      saves, the sixteen-byte call, restores and the five-byte jump back. */
  function StubLength(size: nat, save: bool, ret: ReturnType): nat
  {
    SaveLength(size, save, ret) + 16 + RestoreLength(ret) + 5
  }

  /** The whole stub: the body and a jump from its end back to `resume`. */
  function Stub(overwritten: seq<byte>, save: bool, ret: ReturnType, target: u64, cave: int, resume: int): (r: seq<byte>)
    requires FitsI32(JumpOffset(cave + |StubBody(overwritten, save, ret, target)|, resume))
    ensures |r| == StubLength(|overwritten|, save, ret)
  {
    var body := StubBody(overwritten, save, ret, target);
    body + NearJump(cave + |body|, resume)
  }

  /** The stub is its body followed by the jump from the body's end. */
  lemma StubSplits(overwritten: seq<byte>, save: bool, ret: ReturnType, target: u64, cave: int, resume: int)
    requires FitsI32(JumpOffset(cave + |StubBody(overwritten, save, ret, target)|, resume))
    ensures Stub(overwritten, save, ret, target, cave, resume)
      == StubBody(overwritten, save, ret, target) + NearJump(cave + |StubBody(overwritten, save, ret, target)|, resume)
  {
  }

  /** A fresh anonymous page, zero-filled. */
  function ZeroPage(): (r: seq<byte>)
    ensures |r| == PAGE_SIZE && forall i :: 0 <= i < |r| ==> r[i] == 0
  {
    seq(PAGE_SIZE, _ => 0)
  }

  /** Two writes that abut write their concatenation. */
  lemma WritesAbut(mem: seq<byte>, at: nat, first: seq<byte>, second: seq<byte>, next: nat)
    requires next == at + |first| && next + |second| <= |mem|
    ensures Splice(Splice(mem, at, first), next, second) == Splice(mem, at, first + second)
  {
    SpliceAppend(mem, at, first, second);
  }

  /** The part of `patch_call` that writes the register saves into the stub. */
  method WriteSaves(page: array<byte>, offset: nat, overwritten: seq<byte>, save: bool, ret: ReturnType)
    returns (next: nat)
    requires offset + |SaveState(overwritten, save, ret)| <= page.Length
    modifies page
    ensures page[..] == Splice(old(page[..]), offset, SaveState(overwritten, save, ret))
    ensures next == offset + |SaveState(overwritten, save, ret)|
  {
    ghost var before := page[..];
    next := offset;
    if save {
      next := WriteData(page, next, overwritten);
    } else {
      SpliceNothing(page[..], next);
    }
    ghost var built := When(save, overwritten);
    assert page[..] == Splice(before, offset, built);
    ghost var at := next;
    if ret != Rax {
      next := WriteData(page, next, SAVE_RAX);
    } else {
      SpliceNothing(page[..], next);
    }
    WritesAbut(before, offset, built, When(ret != Rax, SAVE_RAX), at);
    built := built + When(ret != Rax, SAVE_RAX);
    at := next;
    next := WriteData(page, next, SAVE_REGISTERS);
    WritesAbut(before, offset, built, SAVE_REGISTERS, at);
    built := built + SAVE_REGISTERS;
    at := next;
    if ret != Xmm0 {
      next := WriteData(page, next, SAVE_XMM0);
    } else {
      SpliceNothing(page[..], next);
    }
    WritesAbut(before, offset, built, When(ret != Xmm0, SAVE_XMM0), at);
  }

  /** The part of `patch_call` that writes the register restores into the
      stub. */
  method WriteRestores(page: array<byte>, offset: nat, ret: ReturnType) returns (next: nat)
    requires offset + |RestoreState(ret)| <= page.Length
    modifies page
    ensures page[..] == Splice(old(page[..]), offset, RestoreState(ret))
    ensures next == offset + |RestoreState(ret)|
  {
    ghost var before := page[..];
    next := offset;
    if ret != Xmm0 {
      next := WriteData(page, next, LOAD_XMM0);
    } else {
      SpliceNothing(page[..], next);
    }
    ghost var built := When(ret != Xmm0, LOAD_XMM0);
    assert page[..] == Splice(before, offset, built);
    ghost var at := next;
    next := WriteData(page, next, LOAD_REGISTERS);
    WritesAbut(before, offset, built, LOAD_REGISTERS, at);
    built := built + LOAD_REGISTERS;
    at := next;
    if ret != Rax {
      next := WriteData(page, next, LOAD_RAX);
    } else {
      SpliceNothing(page[..], next);
    }
    WritesAbut(before, offset, built, When(ret != Rax, LOAD_RAX), at);
  }

  /** The part of `patch_call` that writes the stub up to its final jump. */
  method WriteStubBody(page: array<byte>, overwritten: seq<byte>, save: bool, ret: ReturnType, target: u64)
    returns (offset: nat)
    requires |StubBody(overwritten, save, ret, target)| <= page.Length
    modifies page
    ensures page[..] == Splice(old(page[..]), 0, StubBody(overwritten, save, ret, target))
    ensures offset == |StubBody(overwritten, save, ret, target)|
  {
    ghost var blank := page[..];
    offset := WriteSaves(page, 0, overwritten, save, ret);
    ghost var built := SaveState(overwritten, save, ret);
    ghost var at := offset;
    offset := WriteCall(page, offset, target);
    WritesAbut(blank, 0, built, CALL_BYTES + U64Bytes(target), at);
    built := built + (CALL_BYTES + U64Bytes(target));
    at := offset;
    offset := WriteRestores(page, offset, ret);
    WritesAbut(blank, 0, built, RestoreState(ret), at);
  }

  /** The part of `patch_call` that fills the page at `cave`: the stub body,
      then the jump back to `resume`, whose displacement must fit in 32 bits
      (`false` where the source panics, after writing the jump opcode). */
  method WriteStub(page: array<byte>, overwritten: seq<byte>, save: bool, ret: ReturnType,
                   target: u64, cave: int, resume: int)
    returns (fits: bool)
    requires StubLength(|overwritten|, save, ret) <= page.Length
    modifies page
    ensures fits == FitsI32(JumpOffset(cave + |StubBody(overwritten, save, ret, target)|, resume))
    ensures fits ==> page[..] == Splice(old(page[..]), 0, Stub(overwritten, save, ret, target, cave, resume))
    ensures !fits ==> page[..] == Splice(old(page[..]), 0, StubBody(overwritten, save, ret, target) + NEAR_JUMP)
  {
    ghost var blank := page[..];
    ghost var body := StubBody(overwritten, save, ret, target);
    var offset := WriteStubBody(page, overwritten, save, ret, target);
    ghost var written := page[..];
    // The jump from the end of the stub back behind the site.
    fits := WriteJump(page, offset, cave + offset, resume);
    if fits {
      ghost var jump := NearJump(cave + offset, resume);
      assert page[..] == Splice(written, offset, jump);
      WritesAbut(blank, 0, body, jump, offset);
      StubSplits(overwritten, save, ret, target, cave, resume);
    } else {
      WritesAbut(blank, 0, body, NEAR_JUMP, offset);
    }
  }

  /** The jump at `offset` of `page`, which sits at address `from`, to
      `resume`: `false`, with only the opcode written, where the displacement
      does not fit in 32 bits. */
  method WriteJump(page: array<byte>, offset: nat, from: int, resume: int) returns (fits: bool)
    requires offset + 5 <= page.Length
    modifies page
    ensures fits == FitsI32(JumpOffset(from, resume))
    ensures fits ==> page[..] == Splice(old(page[..]), offset, NearJump(from, resume))
    ensures !fits ==> page[..] == Splice(old(page[..]), offset, NEAR_JUMP)
  {
    ghost var before := page[..];
    CopyBytes(page, offset, NEAR_JUMP);
    var backOffset := JumpOffset(from, resume);
    if !FitsI32(backOffset) {
      return false;
    }
    CopyBytes(page, offset + 1, I32Bytes(backOffset));
    WritesAbut(before, offset, NEAR_JUMP, I32Bytes(backOffset), offset + 1);
    return true;
  }

  /** The part of `patch_call` that redirects the site: the jump to the cave,
      then (`size - 5` permitting: `false` where it underflows) the NOP slide. */
  method WriteSiteJump(mem: array<byte>, address: nat, size: nat, cave: int) returns (jumped: bool)
    requires CaveLower(address) <= cave < CaveUpper(address)
    requires address + size <= mem.Length && address + 5 <= mem.Length
    modifies mem
    ensures FitsI32(JumpOffset(address, cave))
    ensures jumped == (5 <= size)
    ensures jumped ==> mem[..] == Splice(old(mem[..]), address, SiteJump(address, size, cave))
    ensures !jumped ==> mem[..] == Splice(old(mem[..]), address, NearJump(address, cave))
  {
    ghost var original := mem[..];
    SiteJumpFits(address, cave);
    var _ := WriteJump(mem, address, address, cave);
    if size < 5 {
      return false;
    }
    var nops := seq(size - 5, _ => NOP);
    var _ := WriteData(mem, address + 5, nops);
    WritesAbut(original, address, NearJump(address, cave), nops, address + 5);
    return true;
  }

  /** What `patch_call` leaves behind: the host memory, and either the error
      it stops with or the cave's address and the page contents. */
  datatype Outcome = Outcome(mem: seq<byte>, result: W.Result<(int, seq<byte>), PatchError>)

  /** The outcome of `patch_call` on memory `mem`, step by step: no cave; the
      jump to the cave with a size too small for the NOP slide; the patched
      site with a stub whose jump back does not fit; or the patched site and the
      filled page. */
  function PatchCallOutcome(mem: seq<byte>, address: usize, target: u64, size: nat,
                            save: bool, ret: ReturnType, isMapped: int -> bool): Outcome
    requires TWO_GIB <= address && address + TWO_GIB < 0x1_0000_0000_0000_0000
    requires address + size <= |mem| && address + 5 <= |mem|
    requires StubLength(size, save, ret) <= PAGE_SIZE
  {
    match MemoryCave(address, isMapped)
    case None => Outcome(mem, W.Err(NoCaveFound))
    case Some(cave) => PatchAtCave(mem, address, target, size, save, ret, cave)
  }

  /** The part of `PatchCallOutcome` after the cave has been found. */
  function PatchAtCave(mem: seq<byte>, address: usize, target: u64, size: nat,
                       save: bool, ret: ReturnType, cave: int): Outcome
    requires CaveLower(address) <= cave < CaveUpper(address)
    requires address + size <= |mem| && address + 5 <= |mem|
    requires StubLength(size, save, ret) <= PAGE_SIZE
  {
    SiteJumpFits(address, cave);
    if size < 5 then Outcome(Splice(mem, address, NearJump(address, cave)), W.Err(SizeUnderflow))
    else
      var overwritten := mem[address..address + size];
      var site := Splice(mem, address, SiteJump(address, size, cave));
      var back := JumpOffset(cave + |StubBody(overwritten, save, ret, target)|, address + size);
      if !FitsI32(back) then Outcome(site, W.Err(JumpOutOfRange))
      else Outcome(site, W.Ok((cave, Splice(ZeroPage(), 0, Stub(overwritten, save, ret, target, cave, address + size)))))
  }

  /** Once a cave is found, `patch_call` fails exactly for a site shorter
      than the jump, or for a jump back that does not fit, which a site of at
      most a page never needs. */
  lemma PatchAtCaveResults(mem: seq<byte>, address: usize, target: u64, size: nat,
                           save: bool, ret: ReturnType, cave: int)
    requires CaveLower(address) <= cave < CaveUpper(address)
    requires address + size <= |mem| && address + 5 <= |mem|
    requires StubLength(size, save, ret) <= PAGE_SIZE
    ensures PatchAtCave(mem, address, target, size, save, ret, cave).result == W.Err(SizeUnderflow) <==> size < 5
    ensures size <= PAGE_SIZE ==> PatchAtCave(mem, address, target, size, save, ret, cave).result != W.Err(JumpOutOfRange)
    ensures PatchAtCave(mem, address, target, size, save, ret, cave).result != W.Err(NoCaveFound)
    ensures PatchAtCave(mem, address, target, size, save, ret, cave).result.Ok? ==>
      PatchAtCave(mem, address, target, size, save, ret, cave).result.value.0 == cave
  {
    if 5 <= size && size <= PAGE_SIZE {
      var body := StubBody(mem[address..address + size], save, ret, target);
      BackJumpFits(address, size, cave, |body|);
    }
  }

  /** `patch_call` fails for want of a cave exactly when every candidate is
      mapped and for a short site exactly when a cave is found; for a site of
      at most a page it succeeds otherwise, and the page it returns is at the
      cave `search_memory_cave` finds. */
  lemma PatchCallResults(mem: seq<byte>, address: usize, target: u64, size: nat,
                         save: bool, ret: ReturnType, isMapped: int -> bool)
    requires TWO_GIB <= address && address + TWO_GIB < 0x1_0000_0000_0000_0000
    requires address + size <= |mem| && address + 5 <= |mem|
    requires StubLength(size, save, ret) <= PAGE_SIZE
    ensures var o := PatchCallOutcome(mem, address, target, size, save, ret, isMapped);
      var cave := MemoryCave(address, isMapped);
      && (o.result == W.Err(NoCaveFound) <==> cave.None?)
      && (o.result == W.Err(SizeUnderflow) <==> cave.Some? && size < 5)
      && (size <= PAGE_SIZE ==> (o.result.Ok? <==> cave.Some? && 5 <= size))
      && (o.result.Ok? ==> cave.Some? && o.result.value.0 == cave.value)
  {
    match MemoryCave(address, isMapped)
    case None =>
    case Some(cave) => PatchAtCaveResults(mem, address, target, size, save, ret, cave);
  }

  /** `r` is the result `expected` describes, for a patch of `size` bytes that
      took `overwritten` from the site. */
  predicate Delivers(r: W.Result<Patch, PatchError>, expected: W.Result<(int, seq<byte>), PatchError>,
                     size: nat, overwritten: seq<byte>)
    reads if r.Ok? && r.value.mmap.Some? then {r.value.mmap.value.bytes} else {}
  {
    match expected
    case Err(e) => r == W.Err(e)
    case Ok((cave, page)) =>
      && r.Ok? && r.value.size == size && r.value.overwritten == overwritten
      && r.value.mmap.Some? && r.value.mmap.value.address == cave
      && r.value.mmap.value.bytes[..] == page
  }

  /** `Patch::patch_call`: finds a cave, maps a page there, jumps from the site
      to the page, and writes the stub into the page. The panics are error
      results, with the site bytes the source has already written by then. */
  method PatchCall(mem: array<byte>, address: usize, target: u64, size: usize,
                   saveOverwritten: bool, allowReturn: ReturnType, isMapped: int -> bool)
    returns (r: W.Result<Patch, PatchError>)
    requires TWO_GIB <= address && address + TWO_GIB < 0x1_0000_0000_0000_0000
    requires address + size <= mem.Length && address + 5 <= mem.Length
    requires StubLength(size, saveOverwritten, allowReturn) <= PAGE_SIZE
    modifies mem
    ensures mem[..] == PatchCallOutcome(old(mem[..]), address, target, size, saveOverwritten, allowReturn, isMapped).mem
    ensures Delivers(r, PatchCallOutcome(old(mem[..]), address, target, size, saveOverwritten, allowReturn, isMapped).result,
                     size, old(mem[address..address + size]))
    ensures r.Ok? ==> r.value.mmap.Some? && fresh(r.value.mmap.value.bytes)
  {
    var found := SearchMemoryCave(address, isMapped);
    if found.None? {
      return W.Err(NoCaveFound);
    }
    var page := new byte[PAGE_SIZE](_ => 0);
    r := PatchAt(mem, page, address, target, size, saveOverwritten, allowReturn, found.value);
  }

  /** `patch_call` once the cave is known and `page` is mapped there. */
  method PatchAt(mem: array<byte>, page: array<byte>, address: usize, target: u64, size: usize,
                 save: bool, ret: ReturnType, cave: int)
    returns (r: W.Result<Patch, PatchError>)
    requires TWO_GIB <= address && address + TWO_GIB < 0x1_0000_0000_0000_0000
    requires CaveLower(address) <= cave < CaveUpper(address)
    requires address + size <= mem.Length && address + 5 <= mem.Length
    requires StubLength(size, save, ret) <= PAGE_SIZE
    requires page != mem && page.Length == PAGE_SIZE && forall i :: 0 <= i < PAGE_SIZE ==> page[i] == 0
    modifies mem, page
    ensures mem[..] == PatchAtCave(old(mem[..]), address, target, size, save, ret, cave).mem
    ensures Delivers(r, PatchAtCave(old(mem[..]), address, target, size, save, ret, cave).result,
                     size, old(mem[address..address + size]))
    ensures r.Ok? ==> r.value.mmap == W.Some(Mmap(cave, page))
  {
    ghost var o := PatchAtCave(mem[..], address, target, size, save, ret, cave);
    var overwritten := mem[address..address + size];
    assert page[..] == ZeroPage();
    var jumped := WriteSiteJump(mem, address, size, cave);
    if !jumped {
      assert o == Outcome(mem[..], W.Err(SizeUnderflow));
      return W.Err(SizeUnderflow);
    }
    ghost var site := mem[..];
    var fits := WriteStub(page, overwritten, save, ret, target, cave, address + size);
    assert mem[..] == site;
    if !fits {
      assert o == Outcome(site, W.Err(JumpOutOfRange));
      return W.Err(JumpOutOfRange);
    }
    assert o == Outcome(site, W.Ok((cave, page[..])));
    return W.Ok(Patch(size, overwritten, W.Some(Mmap(cave, page))));
  }

  /** `Patch::overwrite`: copies `data` over the site and keeps what was there. */
  method Overwrite(mem: array<byte>, address: usize, data: seq<byte>) returns (p: Patch)
    requires address + |data| <= mem.Length
    modifies mem
    ensures p == Patch(|data|, old(mem[address..address + |data|]), W.None)
    ensures mem[..] == Splice(old(mem[..]), address, data)
  {
    var overwritten := mem[address..address + |data|];
    CopyBytes(mem, address, data);
    p := Patch(|data|, overwritten, W.None);
  }

  /** After `patch_call` the site starts with the jump opcode and the 32-bit
      displacement to the cave, the rest of its `size` bytes are NOPs, and no
      byte outside the site has changed. */
  lemma SitePatched(mem: seq<byte>, address: nat, size: nat, cave: int)
    requires address + size <= |mem| && 5 <= size && FitsI32(JumpOffset(address, cave))
    ensures var m := Splice(mem, address, SiteJump(address, size, cave));
      && |m| == |mem|
      && m[address] == 0xE9
      && m[address + 1..address + 5] == I32Bytes(JumpOffset(address, cave))
      && (forall i :: address + 5 <= i < address + size ==> m[i] == NOP)
      && (forall i :: 0 <= i < |mem| && !(address <= i < address + size) ==> m[i] == mem[i])
  {
    var site := SiteJump(address, size, cave);
    var m := Splice(mem, address, site);
    SpliceContents(mem, address, site);
    var jump := NearJump(address, cave);
    assert site[..5] == jump;
    assert m[address..address + 5] == jump;
    assert m[address + 1..address + 5] == jump[1..];
    forall i | address + 5 <= i < address + size
      ensures m[i] == NOP
    {
      assert m[i] == site[i - address];
    }
  }
}
