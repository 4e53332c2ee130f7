/** Encoded sizes: which instructions have a two-byte form. */
module Encoding {
  import opened Machine

  predicate Compressible(r: Reg) {
    8 <= r <= 15
  }

  /** Encoded bytes of an access. */
  function MemBytes(k: MemKind, data: Reg, base: Reg, off: int, zcb: bool): nat {
    var w := k.Width();
    if base == 2 && (w == 4 || w == 8) && k != LWU && !(k.IsFp() && w == 4)
       && 0 <= off <= (if w == 8 then 504 else 252) && off % w == 0 && (k.IsStore() || k.IsFp() || data != 0) then 2
    else if !Compressible(base) || !Compressible(data) then 4
    else
      match k
      case LW | SW => if 0 <= off <= 124 && off % 4 == 0 then 2 else 4
      case LD | SD | FLD | FSD => if 0 <= off <= 248 && off % 8 == 0 then 2 else 4
      case LBU | SB => if zcb && 0 <= off <= 3 then 2 else 4
      case LHU | LH | SH => if zcb && (off == 0 || off == 2) then 2 else 4
      case _ => 4
  }

  function AdjustBytes(k: int, compressed: bool): nat {
    if !compressed || k == 0 then 4
    else if k % 16 == 0 && -512 <= k <= 496 then 2
    else if -32 <= k <= 31 then 2 else 4
  }

  predicate SixBits(k: int) {
    -32 <= k <= 31
  }

  /** Encoded bytes of a register operation in its immediate form, in place of one of
      `len` bytes; a pair of shifts counts both. */
  function ImmBytes(i: Insn, len: nat): nat {
    match i
    case Alu(Add, rd, rx, K(k)) => if len == 2 && rd == rx && k != 0 && SixBits(k) then 2 else 4
    case Alu(Addw, rd, rx, K(k)) => if len == 2 && rd == rx && SixBits(k) then 2 else 4
    case Alu(And, rd, rx, K(k)) => if len == 2 && rd == rx && Compressible(rd) && SixBits(k) then 2 else 4
    case Then(Alu(_, rd, rx, _), _) => if len == 2 && rd == rx then 4 else 8
    case _ => 4
  }

  /** And of a store of x0. */
  function ZeroStoreBytes(i: Insn, len: nat, zcb: bool): nat {
    match i
    case Store(k, _, base, off) => if len == 2 then MemBytes(k, 0, base, off, zcb) else 4
    case _ => 4
  }
}
