/** The handful of x86-64 instruction forms that the trampoline stub and the
    patched site are made of, with an encoder and a decoder for them. The
    decoder gives the byte constants of the patcher a meaning that can be
    checked: which registers a block pushes or pops, where it stores XMM
    registers, where a jump lands. Nothing here executes code. */
module X64 {
  import opened Bytes
  import opened Wrappers

  /** General-purpose register numbers: 0 = RAX, 1 = RCX, 2 = RDX, 8..15 = R8..R15. */
  type Gpr = r: int | 0 <= r < 16
  type Xmm = x: int | 0 <= x < 8
  type i32 = v: int | FitsI32(v)

  const RAX: Gpr := 0
  const RCX: Gpr := 1
  const RDX: Gpr := 2
  const R8: Gpr := 8
  const R9: Gpr := 9
  const R10: Gpr := 10
  const R11: Gpr := 11

  /** Caller-saved registers of the Windows x64 calling convention. */
  const VOLATILE_GPRS: set<Gpr> := {RAX, RCX, RDX, R8, R9, R10, R11}
  const VOLATILE_XMMS: set<Xmm> := {0, 1, 2, 3, 4, 5}

  datatype Insn =
    | Push(r: Gpr)                  // PUSH r64
    | Pop(r: Gpr)                   // POP r64
    | SubRsp(imm: byte)             // SUB RSP, imm8 (sign-extended)
    | AddRsp(imm: byte)             // ADD RSP, imm8 (sign-extended)
    | StoreXmm(x: Xmm, disp: byte)  // MOVDQU [RSP + disp8], xmm
    | LoadXmm(x: Xmm, disp: byte)   // MOVDQU xmm, [RSP + disp8]
      /** CALL [RIP + 2]; JMP +8; followed by the 8-byte absolute target: an
          absolute call whose target sits inline and is jumped over on return. */
    | CallAbs(target: u64)
    | JmpRel(rel: i32)              // JMP rel32, lands at (address after it) + rel
    | Nop                           // NOP

  /** The four-byte RIP-relative call and two-byte short jump that precede the
      inline target of CallAbs. */
  const CALL_ABS_PREFIX: seq<byte> := [0xFF, 0x15, 0x02, 0x00, 0x00, 0x00, 0xEB, 0x08]

  /** MOVDQU between an XMM register and [RSP + disp], with F3 0F opcode `op`
      (0x7F stores, 0x6F loads); a zero displacement uses the short form. */
  function MovdquRsp(op: byte, x: Xmm, disp: byte): (s: seq<byte>)
    ensures |s| == if disp == 0 then 5 else 6
  {
    [0xF3, 0x0F, op] + if disp == 0 then [x * 8 + 4, 0x24] else [0x44 + x * 8, 0x24, disp]
  }

  function EncodeInsn(i: Insn): (s: seq<byte>)
    ensures 0 < |s| <= 16
  {
    match i
    case Push(r) => if r < 8 then [0x50 + r] else [0x41, 0x50 + (r - 8)]
    case Pop(r) => if r < 8 then [0x58 + r] else [0x41, 0x58 + (r - 8)]
    case SubRsp(n) => [0x48, 0x83, 0xEC, n]
    case AddRsp(n) => [0x48, 0x83, 0xC4, n]
    case StoreXmm(x, d) => MovdquRsp(0x7F, x, d)
    case LoadXmm(x, d) => MovdquRsp(0x6F, x, d)
    case CallAbs(t) => CALL_ABS_PREFIX + U64Bytes(t)
    case JmpRel(rel) => [0xE9] + I32Bytes(rel)
    case Nop => [0x90]
  }

  function Encode(code: seq<Insn>): (s: seq<byte>)
  {
    if code == [] then [] else EncodeInsn(code[0]) + Encode(code[1..])
  }

  /** Decodes the MOVDQU form that follows an F3 0F `op` prefix. */
  function DecodeMovdqu(s: seq<byte>, store: bool): (r: Option<(Insn, nat)>)
    requires |s| >= 3
    ensures r.Some? ==> 0 < r.value.1 <= |s|
  {
    if |s| < 5 || s[3] % 8 != 4 || s[4] != 0x24 then None
    else
      var x: Xmm := (s[3] / 8) % 8;
      var mode := s[3] / 64;
      if mode == 0 then
        Some((if store then StoreXmm(x, 0) else LoadXmm(x, 0), 5))
      else if mode == 1 && |s| >= 6 then
        Some((if store then StoreXmm(x, s[5]) else LoadXmm(x, s[5]), 6))
      else None
  }

  /** Decodes the first instruction of `s` and says how many bytes it takes. */
  function DecodeInsn(s: seq<byte>): (r: Option<(Insn, nat)>)
    ensures r.Some? ==> 0 < r.value.1 <= |s|
  {
    if s == [] then None
    else if 0x50 <= s[0] < 0x58 then Some((Push(s[0] - 0x50), 1))
    else if 0x58 <= s[0] < 0x60 then Some((Pop(s[0] - 0x58), 1))
    else if s[0] == 0x90 then Some((Nop, 1))
    else if s[0] == 0x41 then
      if |s| >= 2 && 0x50 <= s[1] < 0x58 then Some((Push(8 + s[1] - 0x50), 2))
      else if |s| >= 2 && 0x58 <= s[1] < 0x60 then Some((Pop(8 + s[1] - 0x58), 2))
      else None
    else if s[0] == 0x48 then
      if |s| >= 4 && s[1] == 0x83 && s[2] == 0xEC then Some((SubRsp(s[3]), 4))
      else if |s| >= 4 && s[1] == 0x83 && s[2] == 0xC4 then Some((AddRsp(s[3]), 4))
      else None
    else if s[0] == 0xF3 then
      if |s| >= 3 && s[1] == 0x0F && s[2] == 0x7F then DecodeMovdqu(s, true)
      else if |s| >= 3 && s[1] == 0x0F && s[2] == 0x6F then DecodeMovdqu(s, false)
      else None
    else if s[0] == 0xFF then
      if |s| >= 16 && s[..8] == CALL_ABS_PREFIX then
        U64RangeOf(s[8..16]);
        Some((CallAbs(FromLittleEndian(s[8..16])), 16))
      else None
    else if s[0] == 0xE9 then
      if |s| >= 5 then Some((JmpRel(I32FromBytes(s[1..5])), 5)) else None
    else None
  }

  lemma U64RangeOf(s: seq<byte>)
    requires |s| == 8
    ensures FromLittleEndian(s) < 0x1_0000_0000_0000_0000
  {
  }

  /** Decodes all of `s`, or fails if some part of it is not one of the forms above. */
  function Decode(s: seq<byte>): (r: Option<seq<Insn>>)
    decreases |s|
  {
    if s == [] then Some([])
    else match DecodeInsn(s)
      case None => None
      case Some((i, n)) =>
        match Decode(s[n..])
        case None => None
        case Some(rest) => Some([i] + rest)
  }

  /** Every instruction decodes back from its encoding, whatever follows it. */
  lemma DecodeEncodeInsn(i: Insn, rest: seq<byte>)
    ensures DecodeInsn(EncodeInsn(i) + rest) == Some((i, |EncodeInsn(i)|))
  {
    match i
    case StoreXmm(x, d) => DecodeEncodeMovdqu(i, rest);
    case LoadXmm(x, d) => DecodeEncodeMovdqu(i, rest);
    case CallAbs(t) => DecodeEncodeCall(t, rest);
    case JmpRel(rel) => DecodeEncodeJmp(rel, rest);
    case _ => DecodeEncodeShort(i, rest);
  }

  lemma DecodeEncodeShort(i: Insn, rest: seq<byte>)
    requires i.Push? || i.Pop? || i.SubRsp? || i.AddRsp? || i.Nop?
    ensures DecodeInsn(EncodeInsn(i) + rest) == Some((i, |EncodeInsn(i)|))
  {
  }

  lemma DecodeEncodeMovdqu(i: Insn, rest: seq<byte>)
    requires i.StoreXmm? || i.LoadXmm?
    ensures DecodeInsn(EncodeInsn(i) + rest) == Some((i, |EncodeInsn(i)|))
  {
    var s := EncodeInsn(i) + rest;
    var m := if i.disp == 0 then i.x * 8 + 4 else 0x44 + i.x * 8;
    assert s[3] == m;
    assert m % 8 == 4 && (m / 8) % 8 == i.x && m / 64 == (if i.disp == 0 then 0 else 1);
  }

  lemma DecodeEncodeCall(t: u64, rest: seq<byte>)
    ensures DecodeInsn(EncodeInsn(CallAbs(t)) + rest) == Some((CallAbs(t), 16))
  {
    var s := EncodeInsn(CallAbs(t)) + rest;
    assert s[..8] == CALL_ABS_PREFIX;
    assert s[8..16] == U64Bytes(t);
    U64RoundTrip(t);
  }

  lemma DecodeEncodeJmp(rel: i32, rest: seq<byte>)
    ensures DecodeInsn(EncodeInsn(JmpRel(rel)) + rest) == Some((JmpRel(rel), 5))
  {
    var s := EncodeInsn(JmpRel(rel)) + rest;
    assert s[1..5] == I32Bytes(rel);
    I32RoundTrip(rel);
  }

  lemma {:induction false} EncodeAppend(a: seq<Insn>, b: seq<Insn>)
    ensures Encode(a + b) == Encode(a) + Encode(b)
  {
    if a == [] {
      assert a + b == b;
    } else {
      assert (a + b)[0] == a[0] && (a + b)[1..] == a[1..] + b;
      EncodeAppend(a[1..], b);
    }
  }

  /** Decoding undoes encoding: every instruction list is read back as itself. */
  lemma {:induction false} DecodeEncode(code: seq<Insn>)
    ensures Decode(Encode(code)) == Some(code)
  {
    if code != [] {
      var s := Encode(code);
      var e := EncodeInsn(code[0]);
      DecodeEncodeInsn(code[0], Encode(code[1..]));
      assert s == e + Encode(code[1..]);
      assert s[|e|..] == Encode(code[1..]);
      DecodeEncode(code[1..]);
      assert [code[0]] + code[1..] == code;
    }
  }

  /** The registers pushed, in order. */
  function Pushed(code: seq<Insn>): seq<Gpr>
  {
    if code == [] then [] else (if code[0].Push? then [code[0].r] else []) + Pushed(code[1..])
  }

  /** The registers popped, in order. */
  function Popped(code: seq<Insn>): seq<Gpr>
  {
    if code == [] then [] else (if code[0].Pop? then [code[0].r] else []) + Popped(code[1..])
  }

  /** The value of an imm8 or disp8 byte: the processor sign-extends it. */
  function Signed8(b: byte): (v: int)
    ensures -0x80 <= v < 0x80 && v % 0x100 == b as int
  {
    if b < 0x80 then b as int else b as int - 0x100
  }

  /** The (register, stack offset) pairs stored by MOVDQU. */
  function XmmStores(code: seq<Insn>): set<(Xmm, int)>
  {
    if code == [] then {} else (if code[0].StoreXmm? then {(code[0].x, Signed8(code[0].disp))} else {}) + XmmStores(code[1..])
  }

  /** The (register, stack offset) pairs loaded by MOVDQU. */
  function XmmLoads(code: seq<Insn>): set<(Xmm, int)>
  {
    if code == [] then {} else (if code[0].LoadXmm? then {(code[0].x, Signed8(code[0].disp))} else {}) + XmmLoads(code[1..])
  }

  /** How far the instructions move RSP down, counting pushes as 8 bytes. */
  function StackGrowth(code: seq<Insn>): int
  {
    if code == [] then 0
    else
      var step: int :=
        match code[0]
        case Push(_) => 8
        case Pop(_) => -8
        case SubRsp(n) => Signed8(n)
        case AddRsp(n) => 0 - Signed8(n)
        case _ => 0;
      step + StackGrowth(code[1..])
  }

  function Reverse<T>(s: seq<T>): (r: seq<T>)
    ensures |r| == |s|
  {
    if s == [] then [] else Reverse(s[1..]) + [s[0]]
  }

  lemma {:induction false} ReverseAppend<T>(a: seq<T>, b: seq<T>)
    ensures Reverse(a + b) == Reverse(b) + Reverse(a)
  {
    if a == [] {
      assert a + b == b;
      assert Reverse(b) + [] == Reverse(b);
    } else {
      assert (a + b)[0] == a[0] && (a + b)[1..] == a[1..] + b;
      ReverseAppend(a[1..], b);
    }
  }

  /** The registers a sequence of register numbers names. */
  function Registers(s: seq<Gpr>): (r: set<Gpr>)
    ensures forall x :: x in r <==> x in s
  {
    set x | x in s
  }

  function Nops(n: nat): (r: seq<Insn>)
    ensures |r| == n && forall i :: 0 <= i < n ==> r[i] == Nop
  {
    seq(n, _ => Nop)
  }

  lemma {:induction false} EncodeNops(n: nat)
    ensures Encode(Nops(n)) == seq(n, _ => 0x90)
  {
    if n > 0 {
      assert Nops(n)[1..] == Nops(n - 1);
      EncodeNops(n - 1);
      assert seq(n, _ => 0x90) == [0x90] + seq(n - 1, _ => 0x90);
    }
  }

  /** The effects of a block are the effects of its parts, in order. */
  lemma {:induction false} PushedAppend(a: seq<Insn>, b: seq<Insn>)
    ensures Pushed(a + b) == Pushed(a) + Pushed(b)
  {
    if a == [] {
      assert a + b == b;
    } else {
      assert (a + b)[0] == a[0] && (a + b)[1..] == a[1..] + b;
      PushedAppend(a[1..], b);
    }
  }

  lemma {:induction false} PoppedAppend(a: seq<Insn>, b: seq<Insn>)
    ensures Popped(a + b) == Popped(a) + Popped(b)
  {
    if a == [] {
      assert a + b == b;
    } else {
      assert (a + b)[0] == a[0] && (a + b)[1..] == a[1..] + b;
      PoppedAppend(a[1..], b);
    }
  }

  lemma {:induction false} XmmStoresAppend(a: seq<Insn>, b: seq<Insn>)
    ensures XmmStores(a + b) == XmmStores(a) + XmmStores(b)
  {
    if a == [] {
      assert a + b == b;
    } else {
      assert (a + b)[0] == a[0] && (a + b)[1..] == a[1..] + b;
      XmmStoresAppend(a[1..], b);
    }
  }

  lemma {:induction false} XmmLoadsAppend(a: seq<Insn>, b: seq<Insn>)
    ensures XmmLoads(a + b) == XmmLoads(a) + XmmLoads(b)
  {
    if a == [] {
      assert a + b == b;
    } else {
      assert (a + b)[0] == a[0] && (a + b)[1..] == a[1..] + b;
      XmmLoadsAppend(a[1..], b);
    }
  }

  lemma {:induction false} StackGrowthAppend(a: seq<Insn>, b: seq<Insn>)
    ensures StackGrowth(a + b) == StackGrowth(a) + StackGrowth(b)
  {
    if a == [] {
      assert a + b == b;
    } else {
      assert (a + b)[0] == a[0] && (a + b)[1..] == a[1..] + b;
      StackGrowthAppend(a[1..], b);
    }
  }

  lemma EncodeOne(i: Insn)
    ensures Encode([i]) == EncodeInsn(i)
  {
    assert [i][1..] == [];
  }

  lemma Encode3(a: Insn, b: Insn, c: Insn)
    ensures Encode([a, b, c]) == EncodeInsn(a) + EncodeInsn(b) + EncodeInsn(c)
  {
    var ea, eb, ec := EncodeInsn(a), EncodeInsn(b), EncodeInsn(c);
    assert [a, b, c][1..] == [b, c] && [b, c][1..] == [c];
    EncodeOne(c);
    assert Encode([b, c]) == eb + ec;
    assert Encode([a, b, c]) == ea + (eb + ec);
    AppendAssoc(ea, eb, ec);
  }

  lemma Encode4(a: seq<Insn>, b: seq<Insn>, c: seq<Insn>, d: seq<Insn>)
    ensures Encode(a + b + c + d) == Encode(a) + Encode(b) + Encode(c) + Encode(d)
  {
    EncodeAppend(a, b);
    EncodeAppend(a + b, c);
    EncodeAppend(a + b + c, d);
  }
}
