/** The machine-code fragments src/patchy.rs copies into the host and into
    stubs, byte for byte. */
module PatchyConstants {
  import opened Bytes
  import X64

  const CALL_BYTES: seq<byte> := [0xff, 0x15, 0x02, 0x00, 0x00, 0x00, 0xeb, 0x08]
  const NEAR_JUMP: seq<byte> := [0xe9]

  const SAVE_RAX: seq<byte> := [0x50]
  const SAVE_XMM0: seq<byte> := [0xF3, 0x0F, 0x7F, 0x04, 0x24]
  /** push rcx, rdx, r8, r9, r10, r11; sub rsp, 0x60; movdqu [rsp+0x10..0x50],
      xmm1..xmm5 (the 44 bytes of the source, grouped three instructions at a
      time). */
  const SAVE_REGISTERS: seq<byte> :=
    [0x51, 0x52, 0x41, 0x50]
    + [0x41, 0x51, 0x41, 0x52, 0x41, 0x53]
    + [0x48, 0x83, 0xEC, 0x60, 0xF3, 0x0F, 0x7F, 0x4C, 0x24, 0x10, 0xF3, 0x0F, 0x7F, 0x54, 0x24, 0x20]
    + [0xF3, 0x0F, 0x7F, 0x5C, 0x24, 0x30, 0xF3, 0x0F, 0x7F, 0x64, 0x24, 0x40, 0xF3, 0x0F, 0x7F, 0x6C, 0x24, 0x50]

  const LOAD_RAX: seq<byte> := [0x58]
  const LOAD_XMM0: seq<byte> := [0xF3, 0x0F, 0x6F, 0x04, 0x24]
  /** movdqu xmm1..xmm5, [rsp+0x10..0x50]; add rsp, 0x60; pop r11, r10, r9,
      r8, rdx, rcx (the 44 bytes of the source, grouped the same way). */
  const LOAD_REGISTERS: seq<byte> :=
    [0xF3, 0x0F, 0x6F, 0x4C, 0x24, 0x10, 0xF3, 0x0F, 0x6F, 0x54, 0x24, 0x20, 0xF3, 0x0F, 0x6F, 0x5C, 0x24, 0x30]
    + [0xF3, 0x0F, 0x6F, 0x64, 0x24, 0x40, 0xF3, 0x0F, 0x6F, 0x6C, 0x24, 0x50, 0x48, 0x83, 0xC4, 0x60]
    + [0x41, 0x5B, 0x41, 0x5A, 0x41, 0x59]
    + [0x41, 0x58, 0x5A, 0x59]

  const NOP: byte := 0x90

  /** SAVE_REGISTERS and LOAD_REGISTERS as the instructions their comments in
      the source name, in the same groups (checked in PatchyCode). Registers
      are by number: 1 = RCX, 2 = RDX, 8..11 = R8..R11. */
  const PUSHES_LOW: seq<X64.Insn> := [X64.Push(1), X64.Push(2), X64.Push(8)]
  const PUSHES_HIGH: seq<X64.Insn> := [X64.Push(9), X64.Push(10), X64.Push(11)]
  const STORES_LOW: seq<X64.Insn> := [X64.SubRsp(0x60), X64.StoreXmm(1, 0x10), X64.StoreXmm(2, 0x20)]
  const STORES_HIGH: seq<X64.Insn> := [X64.StoreXmm(3, 0x30), X64.StoreXmm(4, 0x40), X64.StoreXmm(5, 0x50)]
  const SAVE_REGISTERS_CODE: seq<X64.Insn> := PUSHES_LOW + PUSHES_HIGH + STORES_LOW + STORES_HIGH

  const LOADS_LOW: seq<X64.Insn> := [X64.LoadXmm(1, 0x10), X64.LoadXmm(2, 0x20), X64.LoadXmm(3, 0x30)]
  const LOADS_HIGH: seq<X64.Insn> := [X64.LoadXmm(4, 0x40), X64.LoadXmm(5, 0x50), X64.AddRsp(0x60)]
  const POPS_HIGH: seq<X64.Insn> := [X64.Pop(11), X64.Pop(10), X64.Pop(9)]
  const POPS_LOW: seq<X64.Insn> := [X64.Pop(8), X64.Pop(2), X64.Pop(1)]
  const LOAD_REGISTERS_CODE: seq<X64.Insn> := LOADS_LOW + LOADS_HIGH + POPS_HIGH + POPS_LOW
}
