/** What the byte constants of src/patchy.rs mean as x86-64 instructions, and
    what the trampoline stub and the patched site do when read back as code:
    which registers are saved and restored, where each jump lands. */
module PatchyCode {
  import opened Bytes
  import opened Patchy
  import opened PatchyConstants
  import W = Wrappers
  import X64

  /** Every byte constant of the patcher is the encoding of the instructions its
      comment in the source names. */
  lemma ConstantsEncode(target: u64, rel: X64.i32)
    ensures SAVE_RAX == X64.EncodeInsn(X64.Push(X64.RAX))
    ensures LOAD_RAX == X64.EncodeInsn(X64.Pop(X64.RAX))
    ensures SAVE_XMM0 == X64.EncodeInsn(X64.StoreXmm(0, 0))
    ensures LOAD_XMM0 == X64.EncodeInsn(X64.LoadXmm(0, 0))
    ensures SAVE_REGISTERS == X64.Encode(SAVE_REGISTERS_CODE)
    ensures LOAD_REGISTERS == X64.Encode(LOAD_REGISTERS_CODE)
    ensures CALL_BYTES + U64Bytes(target) == X64.EncodeInsn(X64.CallAbs(target))
    ensures NEAR_JUMP + I32Bytes(rel) == X64.EncodeInsn(X64.JmpRel(rel))
  {
    SaveRegistersEncode();
    LoadRegistersEncode();
  }

  // SAVE_REGISTERS and LOAD_REGISTERS are checked three instructions at a time.

  lemma PushesLowEncode()
    ensures X64.Encode(PUSHES_LOW)
      == [0x51, 0x52, 0x41, 0x50]
  {
    X64.Encode3(X64.Push(1), X64.Push(2), X64.Push(8));
  }

  lemma PushesHighEncode()
    ensures X64.Encode(PUSHES_HIGH)
      == [0x41, 0x51, 0x41, 0x52, 0x41, 0x53]
  {
    X64.Encode3(X64.Push(9), X64.Push(10), X64.Push(11));
  }

  lemma StoresLowEncode()
    ensures X64.Encode(STORES_LOW)
      == [0x48, 0x83, 0xEC, 0x60, 0xF3, 0x0F, 0x7F, 0x4C, 0x24, 0x10, 0xF3, 0x0F, 0x7F, 0x54, 0x24, 0x20]
  {
    X64.Encode3(X64.SubRsp(0x60), X64.StoreXmm(1, 0x10), X64.StoreXmm(2, 0x20));
  }

  lemma StoresHighEncode()
    ensures X64.Encode(STORES_HIGH)
      == [0xF3, 0x0F, 0x7F, 0x5C, 0x24, 0x30, 0xF3, 0x0F, 0x7F, 0x64, 0x24, 0x40, 0xF3, 0x0F, 0x7F, 0x6C, 0x24, 0x50]
  {
    X64.Encode3(X64.StoreXmm(3, 0x30), X64.StoreXmm(4, 0x40), X64.StoreXmm(5, 0x50));
  }

  lemma LoadsLowEncode()
    ensures X64.Encode(LOADS_LOW)
      == [0xF3, 0x0F, 0x6F, 0x4C, 0x24, 0x10, 0xF3, 0x0F, 0x6F, 0x54, 0x24, 0x20, 0xF3, 0x0F, 0x6F, 0x5C, 0x24, 0x30]
  {
    X64.Encode3(X64.LoadXmm(1, 0x10), X64.LoadXmm(2, 0x20), X64.LoadXmm(3, 0x30));
  }

  lemma LoadsHighEncode()
    ensures X64.Encode(LOADS_HIGH)
      == [0xF3, 0x0F, 0x6F, 0x64, 0x24, 0x40, 0xF3, 0x0F, 0x6F, 0x6C, 0x24, 0x50, 0x48, 0x83, 0xC4, 0x60]
  {
    X64.Encode3(X64.LoadXmm(4, 0x40), X64.LoadXmm(5, 0x50), X64.AddRsp(0x60));
  }

  lemma PopsHighEncode()
    ensures X64.Encode(POPS_HIGH)
      == [0x41, 0x5B, 0x41, 0x5A, 0x41, 0x59]
  {
    X64.Encode3(X64.Pop(11), X64.Pop(10), X64.Pop(9));
  }

  lemma PopsLowEncode()
    ensures X64.Encode(POPS_LOW)
      == [0x41, 0x58, 0x5A, 0x59]
  {
    X64.Encode3(X64.Pop(8), X64.Pop(2), X64.Pop(1));
  }

  lemma SaveRegistersEncode()
    ensures SAVE_REGISTERS == X64.Encode(SAVE_REGISTERS_CODE)
  {
    PushesLowEncode(); PushesHighEncode(); StoresLowEncode(); StoresHighEncode();
    X64.Encode4(PUSHES_LOW, PUSHES_HIGH, STORES_LOW, STORES_HIGH);
  }

  lemma LoadRegistersEncode()
    ensures LOAD_REGISTERS == X64.Encode(LOAD_REGISTERS_CODE)
  {
    LoadsLowEncode(); LoadsHighEncode(); PopsHighEncode(); PopsLowEncode();
    X64.Encode4(LOADS_LOW, LOADS_HIGH, POPS_HIGH, POPS_LOW);
  }

  // ---- What the register blocks do ----

  // The effects of each group of three instructions.

  lemma PushesLowEffects()
    ensures X64.Pushed(PUSHES_LOW) == [1, 2, 8]
    ensures X64.Popped(PUSHES_LOW) == []
    ensures X64.XmmStores(PUSHES_LOW) == {}
    ensures X64.XmmLoads(PUSHES_LOW) == {}
    ensures X64.StackGrowth(PUSHES_LOW) == 24
  {
  }

  lemma PushesHighEffects()
    ensures X64.Pushed(PUSHES_HIGH) == [9, 10, 11]
    ensures X64.Popped(PUSHES_HIGH) == []
    ensures X64.XmmStores(PUSHES_HIGH) == {}
    ensures X64.XmmLoads(PUSHES_HIGH) == {}
    ensures X64.StackGrowth(PUSHES_HIGH) == 24
  {
  }

  lemma StoresLowEffects()
    ensures X64.Pushed(STORES_LOW) == []
    ensures X64.Popped(STORES_LOW) == []
    ensures X64.XmmStores(STORES_LOW) == {(1, 0x10), (2, 0x20)}
    ensures X64.XmmLoads(STORES_LOW) == {}
    ensures X64.StackGrowth(STORES_LOW) == 0x60
  {
  }

  lemma StoresHighEffects()
    ensures X64.Pushed(STORES_HIGH) == []
    ensures X64.Popped(STORES_HIGH) == []
    ensures X64.XmmStores(STORES_HIGH) == {(3, 0x30), (4, 0x40), (5, 0x50)}
    ensures X64.XmmLoads(STORES_HIGH) == {}
    ensures X64.StackGrowth(STORES_HIGH) == 0
  {
  }

  lemma LoadsLowEffects()
    ensures X64.Pushed(LOADS_LOW) == []
    ensures X64.Popped(LOADS_LOW) == []
    ensures X64.XmmStores(LOADS_LOW) == {}
    ensures X64.XmmLoads(LOADS_LOW) == {(1, 0x10), (2, 0x20), (3, 0x30)}
    ensures X64.StackGrowth(LOADS_LOW) == 0
  {
  }

  lemma LoadsHighEffects()
    ensures X64.Pushed(LOADS_HIGH) == []
    ensures X64.Popped(LOADS_HIGH) == []
    ensures X64.XmmStores(LOADS_HIGH) == {}
    ensures X64.XmmLoads(LOADS_HIGH) == {(4, 0x40), (5, 0x50)}
    ensures X64.StackGrowth(LOADS_HIGH) == -0x60
  {
  }

  lemma PopsHighEffects()
    ensures X64.Pushed(POPS_HIGH) == []
    ensures X64.Popped(POPS_HIGH) == [11, 10, 9]
    ensures X64.XmmStores(POPS_HIGH) == {}
    ensures X64.XmmLoads(POPS_HIGH) == {}
    ensures X64.StackGrowth(POPS_HIGH) == -24
  {
  }

  lemma PopsLowEffects()
    ensures X64.Pushed(POPS_LOW) == []
    ensures X64.Popped(POPS_LOW) == [8, 2, 1]
    ensures X64.XmmStores(POPS_LOW) == {}
    ensures X64.XmmLoads(POPS_LOW) == {}
    ensures X64.StackGrowth(POPS_LOW) == -24
  {
  }

  /** SAVE_REGISTERS pushes RCX, RDX, R8..R11 and pops nothing. */
  lemma SaveRegistersPushes()
    ensures X64.Pushed(SAVE_REGISTERS_CODE) == [1, 2, 8] + [9, 10, 11]
    ensures X64.Popped(SAVE_REGISTERS_CODE) == []
  {
    PushesLowEffects(); PushesHighEffects(); StoresLowEffects(); StoresHighEffects();
    X64.PushedAppend(PUSHES_LOW, PUSHES_HIGH);
    X64.PushedAppend(PUSHES_LOW + PUSHES_HIGH, STORES_LOW);
    X64.PushedAppend(PUSHES_LOW + PUSHES_HIGH + STORES_LOW, STORES_HIGH);
    X64.PoppedAppend(PUSHES_LOW, PUSHES_HIGH);
    X64.PoppedAppend(PUSHES_LOW + PUSHES_HIGH, STORES_LOW);
    X64.PoppedAppend(PUSHES_LOW + PUSHES_HIGH + STORES_LOW, STORES_HIGH);
  }

  /** SAVE_REGISTERS then stores XMM1..XMM5 in the 16-byte slots at
      0x10..0x50 of the 0x60 bytes it reserves. */
  lemma SaveRegistersStores()
    ensures X64.XmmStores(SAVE_REGISTERS_CODE) == {(1, 0x10), (2, 0x20), (3, 0x30), (4, 0x40), (5, 0x50)}
    ensures X64.XmmLoads(SAVE_REGISTERS_CODE) == {}
  {
    PushesLowEffects(); PushesHighEffects(); StoresLowEffects(); StoresHighEffects();
    X64.XmmStoresAppend(PUSHES_LOW, PUSHES_HIGH);
    X64.XmmStoresAppend(PUSHES_LOW + PUSHES_HIGH, STORES_LOW);
    X64.XmmStoresAppend(PUSHES_LOW + PUSHES_HIGH + STORES_LOW, STORES_HIGH);
    X64.XmmLoadsAppend(PUSHES_LOW, PUSHES_HIGH);
    X64.XmmLoadsAppend(PUSHES_LOW + PUSHES_HIGH, STORES_LOW);
    X64.XmmLoadsAppend(PUSHES_LOW + PUSHES_HIGH + STORES_LOW, STORES_HIGH);
  }

  /** LOAD_REGISTERS pops R11, R10, R9, R8, RDX, RCX and pushes nothing. */
  lemma LoadRegistersPops()
    ensures X64.Pushed(LOAD_REGISTERS_CODE) == []
    ensures X64.Popped(LOAD_REGISTERS_CODE) == [11, 10, 9] + [8, 2, 1]
  {
    LoadsLowEffects(); LoadsHighEffects(); PopsHighEffects(); PopsLowEffects();
    X64.PushedAppend(LOADS_LOW, LOADS_HIGH);
    X64.PushedAppend(LOADS_LOW + LOADS_HIGH, POPS_HIGH);
    X64.PushedAppend(LOADS_LOW + LOADS_HIGH + POPS_HIGH, POPS_LOW);
    X64.PoppedAppend(LOADS_LOW, LOADS_HIGH);
    X64.PoppedAppend(LOADS_LOW + LOADS_HIGH, POPS_HIGH);
    X64.PoppedAppend(LOADS_LOW + LOADS_HIGH + POPS_HIGH, POPS_LOW);
  }

  /** LOAD_REGISTERS first loads XMM1..XMM5 from the same slots. */
  lemma LoadRegistersLoads()
    ensures X64.XmmStores(LOAD_REGISTERS_CODE) == {}
    ensures X64.XmmLoads(LOAD_REGISTERS_CODE) == {(1, 0x10), (2, 0x20), (3, 0x30), (4, 0x40), (5, 0x50)}
  {
    LoadsLowEffects(); LoadsHighEffects(); PopsHighEffects(); PopsLowEffects();
    X64.XmmStoresAppend(LOADS_LOW, LOADS_HIGH);
    X64.XmmStoresAppend(LOADS_LOW + LOADS_HIGH, POPS_HIGH);
    X64.XmmStoresAppend(LOADS_LOW + LOADS_HIGH + POPS_HIGH, POPS_LOW);
    X64.XmmLoadsAppend(LOADS_LOW, LOADS_HIGH);
    X64.XmmLoadsAppend(LOADS_LOW + LOADS_HIGH, POPS_HIGH);
    X64.XmmLoadsAppend(LOADS_LOW + LOADS_HIGH + POPS_HIGH, POPS_LOW);
  }

  /** SAVE_REGISTERS moves RSP down by its six pushes and the 0x60-byte area. */
  lemma SaveRegistersStack()
    ensures X64.StackGrowth(SAVE_REGISTERS_CODE) == 6 * 8 + 0x60
  {
    PushesLowEffects(); PushesHighEffects(); StoresLowEffects(); StoresHighEffects();
    X64.StackGrowthAppend(PUSHES_LOW, PUSHES_HIGH);
    X64.StackGrowthAppend(PUSHES_LOW + PUSHES_HIGH, STORES_LOW);
    X64.StackGrowthAppend(PUSHES_LOW + PUSHES_HIGH + STORES_LOW, STORES_HIGH);
  }

  /** LOAD_REGISTERS moves RSP back up by the same amount. */
  lemma LoadRegistersStack()
    ensures X64.StackGrowth(LOAD_REGISTERS_CODE) == -(6 * 8 + 0x60)
  {
    LoadsLowEffects(); LoadsHighEffects(); PopsHighEffects(); PopsLowEffects();
    X64.StackGrowthAppend(LOADS_LOW, LOADS_HIGH);
    X64.StackGrowthAppend(LOADS_LOW + LOADS_HIGH, POPS_HIGH);
    X64.StackGrowthAppend(LOADS_LOW + LOADS_HIGH + POPS_HIGH, POPS_LOW);
  }

  // ---- The stub as code ----

  /** The instructions of the saves `patch_call` writes for `ret`. */
  function SaveCode(ret: ReturnType): (code: seq<X64.Insn>)
    ensures |code| == 12 + (if ret != Rax then 1 else 0) + (if ret != Xmm0 then 1 else 0)
  {
    (if ret != Rax then [X64.Push(X64.RAX)] else [])
    + SAVE_REGISTERS_CODE
    + (if ret != Xmm0 then [X64.StoreXmm(0, 0)] else [])
  }

  /** The instructions of the restores `patch_call` writes for `ret`. */
  function RestoreCode(ret: ReturnType): (code: seq<X64.Insn>)
    ensures |code| == 12 + (if ret != Rax then 1 else 0) + (if ret != Xmm0 then 1 else 0)
  {
    (if ret != Xmm0 then [X64.LoadXmm(0, 0)] else [])
    + LOAD_REGISTERS_CODE
    + (if ret != Rax then [X64.Pop(X64.RAX)] else [])
  }

  /** The stub after the replayed bytes, as instructions: saves, the call,
      restores and the jump back. */
  function StubCode(ret: ReturnType, target: u64, back: X64.i32): (code: seq<X64.Insn>)
    ensures |code| == |SaveCode(ret)| + 1 + |RestoreCode(ret)| + 1
  {
    SaveCode(ret) + [X64.CallAbs(target)] + RestoreCode(ret) + [X64.JmpRel(back)]
  }

  /** The saves are the replayed bytes followed by the encoding of SaveCode. */
  lemma SaveStateEncodes(overwritten: seq<byte>, save: bool, ret: ReturnType)
    ensures SaveState(overwritten, save, ret) == When(save, overwritten) + X64.Encode(SaveCode(ret))
  {
    var a: seq<X64.Insn> := if ret != Rax then [X64.Push(X64.RAX)] else [];
    var c: seq<X64.Insn> := if ret != Xmm0 then [X64.StoreXmm(0, 0)] else [];
    ConstantsEncode(0, 0);
    assert X64.Encode(a) == When(ret != Rax, SAVE_RAX);
    assert X64.Encode(c) == When(ret != Xmm0, SAVE_XMM0);
    X64.EncodeAppend(a, SAVE_REGISTERS_CODE);
    X64.EncodeAppend(a + SAVE_REGISTERS_CODE, c);
    var e := When(ret != Rax, SAVE_RAX) + SAVE_REGISTERS + When(ret != Xmm0, SAVE_XMM0);
    assert X64.Encode(SaveCode(ret)) == e;
    var w := When(save, overwritten);
    AppendAssoc(w, When(ret != Rax, SAVE_RAX) + SAVE_REGISTERS, When(ret != Xmm0, SAVE_XMM0));
    AppendAssoc(w, When(ret != Rax, SAVE_RAX), SAVE_REGISTERS);
  }

  /** The restores are the encoding of RestoreCode. */
  lemma RestoreStateEncodes(ret: ReturnType)
    ensures RestoreState(ret) == X64.Encode(RestoreCode(ret))
  {
    var a: seq<X64.Insn> := if ret != Xmm0 then [X64.LoadXmm(0, 0)] else [];
    var c: seq<X64.Insn> := if ret != Rax then [X64.Pop(X64.RAX)] else [];
    ConstantsEncode(0, 0);
    assert X64.Encode(a) == When(ret != Xmm0, LOAD_XMM0);
    assert X64.Encode(c) == When(ret != Rax, LOAD_RAX);
    X64.EncodeAppend(a, LOAD_REGISTERS_CODE);
    X64.EncodeAppend(a + LOAD_REGISTERS_CODE, c);
  }

  /** The stub is the replayed bytes followed by the encoding of StubCode,
      whose jump displacement is the one `patch_call` computes. */
  lemma StubEncodes(overwritten: seq<byte>, save: bool, ret: ReturnType, target: u64, cave: int, resume: int)
    requires FitsI32(JumpOffset(cave + |StubBody(overwritten, save, ret, target)|, resume))
    ensures Stub(overwritten, save, ret, target, cave, resume)
      == When(save, overwritten)
         + X64.Encode(StubCode(ret, target, JumpOffset(cave + |StubBody(overwritten, save, ret, target)|, resume)))
  {
    var back := JumpOffset(cave + |StubBody(overwritten, save, ret, target)|, resume);
    StubSplits(overwritten, save, ret, target, cave, resume);
    SaveStateEncodes(overwritten, save, ret);
    RestoreStateEncodes(ret);
    ConstantsEncode(target, back);
    X64.EncodeOne(X64.CallAbs(target));
    X64.EncodeOne(X64.JmpRel(back));
    X64.Encode4(SaveCode(ret), [X64.CallAbs(target)], RestoreCode(ret), [X64.JmpRel(back)]);
    AppendAssoc4(When(save, overwritten), X64.Encode(SaveCode(ret)), CALL_BYTES + U64Bytes(target),
      X64.Encode(RestoreCode(ret)), NEAR_JUMP + I32Bytes(back));
  }

  /** Read back as code, the stub replays the overwritten bytes (when asked
      to), then runs the saves, the call to `target`, the restores and a jump
      that lands at `resume`: `site + size` in `patch_call`. */
  lemma StubDecodes(overwritten: seq<byte>, save: bool, ret: ReturnType, target: u64, cave: int, resume: int)
    requires FitsI32(JumpOffset(cave + |StubBody(overwritten, save, ret, target)|, resume))
    ensures var stub := Stub(overwritten, save, ret, target, cave, resume);
      var replayed := When(save, overwritten);
      var back := JumpOffset(cave + |StubBody(overwritten, save, ret, target)|, resume);
      && stub[..|replayed|] == replayed
      && X64.Decode(stub[|replayed|..]) == W.Some(StubCode(ret, target, back))
      && cave + |stub| + back == resume
  {
    var back := JumpOffset(cave + |StubBody(overwritten, save, ret, target)|, resume);
    var replayed := When(save, overwritten);
    var code := X64.Encode(StubCode(ret, target, back));
    StubEncodes(overwritten, save, ret, target, cave, resume);
    assert (replayed + code)[..|replayed|] == replayed;
    assert (replayed + code)[|replayed|..] == code;
    X64.DecodeEncode(StubCode(ret, target, back));
  }

  /** Read back as code, the patched site is one jump to the cave followed by
      `size - 5` NOPs. */
  lemma SiteDecodes(site: int, size: nat, cave: int)
    requires 5 <= size && FitsI32(JumpOffset(site, cave))
    ensures X64.Decode(SiteJump(site, size, cave)) == W.Some([X64.JmpRel(JumpOffset(site, cave))] + X64.Nops(size - 5))
    ensures site + 5 + JumpOffset(site, cave) == cave
  {
    var code := [X64.JmpRel(JumpOffset(site, cave))] + X64.Nops(size - 5);
    ConstantsEncode(0, JumpOffset(site, cave));
    X64.EncodeOne(X64.JmpRel(JumpOffset(site, cave)));
    X64.EncodeNops(size - 5);
    X64.EncodeAppend([X64.JmpRel(JumpOffset(site, cave))], X64.Nops(size - 5));
    X64.DecodeEncode(code);
  }

  /** With `save_overwritten`, the page `patch_call` returns starts with the
      bytes it took from the site. */
  lemma StubReplaysSite(overwritten: seq<byte>, ret: ReturnType, target: u64, cave: int, resume: int)
    requires StubLength(|overwritten|, true, ret) <= PAGE_SIZE
    requires FitsI32(JumpOffset(cave + |StubBody(overwritten, true, ret, target)|, resume))
    ensures Splice(ZeroPage(), 0, Stub(overwritten, true, ret, target, cave, resume))[..|overwritten|] == overwritten
  {
    var stub := Stub(overwritten, true, ret, target, cave, resume);
    StubDecodes(overwritten, true, ret, target, cave, resume);
    SpliceContents(ZeroPage(), 0, stub);
    assert Splice(ZeroPage(), 0, stub)[..|overwritten|] == stub[..|overwritten|];
  }

  // ---- Saves and restores pair up ----

  /** RAX, when saved, as a list of register numbers. */
  function RaxSaved(ret: ReturnType): (r: seq<X64.Gpr>)
    ensures r == [] || r == [X64.RAX]
  {
    if ret != Rax then [0] else []
  }

  lemma SavePushes(ret: ReturnType)
    ensures X64.Pushed(SaveCode(ret)) == RaxSaved(ret) + ([1, 2, 8] + [9, 10, 11])
    ensures X64.Popped(SaveCode(ret)) == []
  {
    var rax: seq<X64.Insn> := if ret != Rax then [X64.Push(0)] else [];
    var xmm0: seq<X64.Insn> := if ret != Xmm0 then [X64.StoreXmm(0, 0)] else [];
    assert X64.Pushed(rax) == RaxSaved(ret) && X64.Popped(rax) == [];
    assert X64.Pushed(xmm0) == [] && X64.Popped(xmm0) == [];
    SaveRegistersPushes();
    X64.PushedAppend(rax, SAVE_REGISTERS_CODE);
    X64.PushedAppend(rax + SAVE_REGISTERS_CODE, xmm0);
    X64.PoppedAppend(rax, SAVE_REGISTERS_CODE);
    X64.PoppedAppend(rax + SAVE_REGISTERS_CODE, xmm0);
  }

  lemma RestorePops(ret: ReturnType)
    ensures X64.Popped(RestoreCode(ret)) == ([11, 10, 9] + [8, 2, 1]) + RaxSaved(ret)
    ensures X64.Pushed(RestoreCode(ret)) == []
  {
    var xmm0: seq<X64.Insn> := if ret != Xmm0 then [X64.LoadXmm(0, 0)] else [];
    var rax: seq<X64.Insn> := if ret != Rax then [X64.Pop(0)] else [];
    assert X64.Popped(rax) == RaxSaved(ret) && X64.Pushed(rax) == [];
    assert X64.Pushed(xmm0) == [] && X64.Popped(xmm0) == [];
    LoadRegistersPops();
    X64.PushedAppend(xmm0, LOAD_REGISTERS_CODE);
    X64.PushedAppend(xmm0 + LOAD_REGISTERS_CODE, rax);
    X64.PoppedAppend(xmm0, LOAD_REGISTERS_CODE);
    X64.PoppedAppend(xmm0 + LOAD_REGISTERS_CODE, rax);
  }

  /** The restores pop exactly the registers the saves push, in reverse
      order; the saves pop nothing and the restores push nothing. */
  lemma SaveRestoreGprs(ret: ReturnType)
    ensures X64.Popped(RestoreCode(ret)) == X64.Reverse(X64.Pushed(SaveCode(ret)))
    ensures X64.Popped(SaveCode(ret)) == [] && X64.Pushed(RestoreCode(ret)) == []
  {
    SavePushes(ret);
    RestorePops(ret);
    var pa := RaxSaved(ret);
    var low: seq<X64.Gpr> := [1, 2, 8];
    var high: seq<X64.Gpr> := [9, 10, 11];
    X64.ReverseAppend(pa, low + high);
    X64.ReverseAppend(low, high);
    assert X64.Reverse(high) == [11, 10, 9];
    assert X64.Reverse(low) == [8, 2, 1];
    assert X64.Reverse(pa) == pa;
  }

  /** The pushed registers are the caller-saved ones, except RAX when it
      carries the result. */
  lemma SavedGprs(ret: ReturnType)
    ensures X64.Registers(X64.Pushed(SaveCode(ret)))
      == if ret == Rax then X64.VOLATILE_GPRS - {X64.RAX} else X64.VOLATILE_GPRS
  {
    SavePushes(ret);
  }

  /** XMM0, when saved, as the (register, stack offset) pair of its slot. */
  function Xmm0Saved(ret: ReturnType): (r: set<(X64.Xmm, int)>)
    ensures r == {} || r == {(0, 0)}
  {
    if ret != Xmm0 then {(0, 0)} else {}
  }

  lemma SaveStores(ret: ReturnType)
    ensures X64.XmmStores(SaveCode(ret)) == {(1, 0x10), (2, 0x20), (3, 0x30), (4, 0x40), (5, 0x50)} + Xmm0Saved(ret)
    ensures X64.XmmLoads(SaveCode(ret)) == {}
    ensures X64.StackGrowth(SaveCode(ret)) == (if ret != Rax then 8 else 0) + 6 * 8 + 0x60
  {
    var rax: seq<X64.Insn> := if ret != Rax then [X64.Push(0)] else [];
    var xmm0: seq<X64.Insn> := if ret != Xmm0 then [X64.StoreXmm(0, 0)] else [];
    assert X64.XmmStores(rax) == {} && X64.XmmLoads(rax) == {};
    assert X64.StackGrowth(rax) == if ret != Rax then 8 else 0;
    assert X64.XmmStores(xmm0) == Xmm0Saved(ret) && X64.XmmLoads(xmm0) == {} && X64.StackGrowth(xmm0) == 0;
    SaveRegistersStores();
    SaveRegistersStack();
    X64.XmmStoresAppend(rax, SAVE_REGISTERS_CODE);
    X64.XmmStoresAppend(rax + SAVE_REGISTERS_CODE, xmm0);
    X64.XmmLoadsAppend(rax, SAVE_REGISTERS_CODE);
    X64.XmmLoadsAppend(rax + SAVE_REGISTERS_CODE, xmm0);
    X64.StackGrowthAppend(rax, SAVE_REGISTERS_CODE);
    X64.StackGrowthAppend(rax + SAVE_REGISTERS_CODE, xmm0);
  }

  lemma RestoreLoads(ret: ReturnType)
    ensures X64.XmmLoads(RestoreCode(ret)) == Xmm0Saved(ret) + {(1, 0x10), (2, 0x20), (3, 0x30), (4, 0x40), (5, 0x50)}
    ensures X64.XmmStores(RestoreCode(ret)) == {}
    ensures X64.StackGrowth(RestoreCode(ret)) == -(6 * 8 + 0x60) - (if ret != Rax then 8 else 0)
  {
    var xmm0: seq<X64.Insn> := if ret != Xmm0 then [X64.LoadXmm(0, 0)] else [];
    var rax: seq<X64.Insn> := if ret != Rax then [X64.Pop(0)] else [];
    assert X64.XmmStores(rax) == {} && X64.XmmLoads(rax) == {};
    assert X64.StackGrowth(rax) == if ret != Rax then -8 else 0;
    assert X64.XmmLoads(xmm0) == Xmm0Saved(ret) && X64.XmmStores(xmm0) == {} && X64.StackGrowth(xmm0) == 0;
    LoadRegistersLoads();
    LoadRegistersStack();
    X64.XmmStoresAppend(xmm0, LOAD_REGISTERS_CODE);
    X64.XmmStoresAppend(xmm0 + LOAD_REGISTERS_CODE, rax);
    X64.XmmLoadsAppend(xmm0, LOAD_REGISTERS_CODE);
    X64.XmmLoadsAppend(xmm0 + LOAD_REGISTERS_CODE, rax);
    X64.StackGrowthAppend(xmm0, LOAD_REGISTERS_CODE);
    X64.StackGrowthAppend(xmm0 + LOAD_REGISTERS_CODE, rax);
  }

  /** The restores load every XMM register from the slot the saves stored it
      in, and RSP ends where it started. */
  lemma SaveRestoreXmms(ret: ReturnType)
    ensures X64.XmmLoads(RestoreCode(ret)) == X64.XmmStores(SaveCode(ret))
    ensures X64.XmmLoads(SaveCode(ret)) == {} && X64.XmmStores(RestoreCode(ret)) == {}
    ensures X64.StackGrowth(SaveCode(ret)) + X64.StackGrowth(RestoreCode(ret)) == 0
  {
    SaveStores(ret);
    RestoreLoads(ret);
  }

  /** The stored XMM registers are the caller-saved ones, except XMM0 when it
      carries the result, and XMM `x` goes to the 16-byte slot at `16 * x`:
      distinct slots inside the 0x60 bytes SAVE_REGISTERS reserves. */
  lemma SavedXmms(ret: ReturnType)
    ensures forall x: X64.Xmm, d: int ::
              (x, d) in X64.XmmStores(SaveCode(ret)) <==> (x in X64.VOLATILE_XMMS && !(ret == Xmm0 && x == 0) && d == 16 * x)
  {
    SaveStores(ret);
  }
}
