/** Byte-order utilities of the ORCA reader: the host endianness predicates,
    the byte reversal of 16-, 32- and 64-bit unsigned values, and the
    lane-wise concatenation used to assemble the 48-bit timestamp. */
module ORUtils {
  import opened Bits

  // ---------------------------------------------------------------------------
  // Host endianness
  // ---------------------------------------------------------------------------

  /** The endianness is fixed at compile time by whether the macro
      ORBIG_ENDIAN_MACHINE is defined; `bigEndianMachine` stands for that
      choice, so both builds are covered by every statement below. */
  function SysIsLittleEndian(bigEndianMachine: bool): (r: bool)
    ensures r <==> !bigEndianMachine
  {
    if bigEndianMachine then false else true
  }

  /** The negation of SysIsLittleEndian, for both builds. */
  function SysIsNotLittleEndian(bigEndianMachine: bool): (r: bool)
    ensures r != SysIsLittleEndian(bigEndianMachine)
    ensures r <==> bigEndianMachine
  {
    !SysIsLittleEndian(bigEndianMachine)
  }

  // ---------------------------------------------------------------------------
  // Byte lanes
  // ---------------------------------------------------------------------------

  /** Byte i of x, byte 0 being the least significant. */
  function ByteOf16(x: bv16, i: nat): bv8
    requires i < 2
  {
    if i == 0 then (x & 0xff) as bv8
    else ((x >> 8) & 0xff) as bv8
  }

  function ByteOf32(x: bv32, i: nat): bv8
    requires i < 4
  {
    if i == 0 then (x & 0xff) as bv8
    else if i == 1 then ((x >> 8) & 0xff) as bv8
    else if i == 2 then ((x >> 16) & 0xff) as bv8
    else ((x >> 24) & 0xff) as bv8
  }

  function ByteOf64(x: bv64, i: nat): bv8
    requires i < 8
  {
    if i == 0 then (x & 0xff) as bv8
    else if i == 1 then ((x >> 8) & 0xff) as bv8
    else if i == 2 then ((x >> 16) & 0xff) as bv8
    else if i == 3 then ((x >> 24) & 0xff) as bv8
    else if i == 4 then ((x >> 32) & 0xff) as bv8
    else if i == 5 then ((x >> 40) & 0xff) as bv8
    else if i == 6 then ((x >> 48) & 0xff) as bv8
    else ((x >> 56) & 0xff) as bv8
  }

  /** A value is determined by its bytes. */
  lemma BytesDetermine32(x: bv32, y: bv32)
    requires forall i :: 0 <= i < 4 ==> ByteOf32(x, i) == ByteOf32(y, i)
    ensures x == y
  {
    assert ByteOf32(x, 0) == ByteOf32(y, 0);
    assert ByteOf32(x, 1) == ByteOf32(y, 1);
    assert ByteOf32(x, 2) == ByteOf32(y, 2);
    assert ByteOf32(x, 3) == ByteOf32(y, 3);
  }

  // ---------------------------------------------------------------------------
  // Swap
  // ---------------------------------------------------------------------------

  /** The two bytes of a 16-bit value exchanged. */
  function Swap16(x: bv16): (r: bv16)
    ensures ByteOf16(r, 0) == ByteOf16(x, 1) && ByteOf16(r, 1) == ByteOf16(x, 0)
  {
    ((x & 0xff00) >> 8) | ((x & 0x00ff) << 8)
  }

  /** Byte i of the result is byte 3 - i of the argument. */
  function Swap32(x: bv32): (r: bv32)
    ensures forall i :: 0 <= i < 4 ==> ByteOf32(r, i) == ByteOf32(x, 3 - i)
  {
    ((x & 0xff000000) >> 24) |
    ((x & 0x00ff0000) >>  8) |
    ((x & 0x0000ff00) <<  8) |
    ((x & 0x000000ff) << 24)
  }

  /** Byte i of the result is byte 7 - i of the argument. */
  function Swap64(x: bv64): (r: bv64)
    ensures forall i :: 0 <= i < 8 ==> ByteOf64(r, i) == ByteOf64(x, 7 - i)
  {
    ((x & 0xff00000000000000) >> 56) |
    ((x & 0x00ff000000000000) >> 40) |
    ((x & 0x0000ff0000000000) >> 24) |
    ((x & 0x000000ff00000000) >>  8) |
    ((x & 0x00000000ff000000) <<  8) |
    ((x & 0x0000000000ff0000) << 24) |
    ((x & 0x000000000000ff00) << 40) |
    ((x & 0x00000000000000ff) << 56)
  }

  /** Swapping twice gives back the original value, at every width. */
  lemma SwapInvolution(x16: bv16, x32: bv32, x64: bv64)
    ensures Swap16(Swap16(x16)) == x16
    ensures Swap32(Swap32(x32)) == x32
    ensures Swap64(Swap64(x64)) == x64
  {
  }

  /** The reference values of the byte-order swap. */
  lemma SwapExamples()
    ensures Swap16(0x1234) == 0x3412
    ensures Swap32(0x12345678) == 0x78563412
    ensures Swap64(0x0123_4567_89ab_cdef) == 0xefcd_ab89_6745_2301
  {
  }

  /** The in-place overloads. Memory is a sequence of cells of the
      argument's width and a reference is the index of a cell: the overload
      overwrites cell `x` with its swapped value, leaves every other cell as
      it was, and returns a reference to that same cell. */
  method SwapInPlace16(mem: seq<bv16>, x: nat) returns (mem': seq<bv16>, r: nat)
    requires x < |mem|
    ensures r == x && |mem'| == |mem|
    ensures mem'[r] == Swap16(mem[x])
    ensures forall j :: 0 <= j < |mem| && j != x ==> mem'[j] == mem[j]
  {
    mem' := mem[x := Swap16(mem[x])];
    r := x;
  }

  method SwapInPlace32(mem: seq<bv32>, x: nat) returns (mem': seq<bv32>, r: nat)
    requires x < |mem|
    ensures r == x && |mem'| == |mem|
    ensures mem'[r] == Swap32(mem[x])
    ensures forall j :: 0 <= j < |mem| && j != x ==> mem'[j] == mem[j]
  {
    mem' := mem[x := Swap32(mem[x])];
    r := x;
  }

  method SwapInPlace64(mem: seq<bv64>, x: nat) returns (mem': seq<bv64>, r: nat)
    requires x < |mem|
    ensures r == x && |mem'| == |mem|
    ensures mem'[r] == Swap64(mem[x])
    ensures forall j :: 0 <= j < |mem| && j != x ==> mem'[j] == mem[j]
  {
    mem' := mem[x := Swap64(mem[x])];
    r := x;
  }

  // ---------------------------------------------------------------------------
  // Normalising a native load to little-endian order
  // ---------------------------------------------------------------------------

  /** The value four bytes in memory denote in little-endian order. */
  function LoadLittleEndian32(b: seq<bv8>): (r: bv32)
    requires |b| == 4
    ensures forall i :: 0 <= i < 4 ==> ByteOf32(r, i) == b[i]
  {
    (b[0] as bv32) | ((b[1] as bv32) << 8) | ((b[2] as bv32) << 16) | ((b[3] as bv32) << 24)
  }

  /** The value a host of the given build reads from four bytes in memory. */
  function NativeLoad32(b: seq<bv8>, bigEndianMachine: bool): (r: bv32)
    requires |b| == 4
    ensures forall i :: 0 <= i < 4 ==>
      ByteOf32(r, i) == (if bigEndianMachine then b[3 - i] else b[i])
  {
    if bigEndianMachine then
      (b[3] as bv32) | ((b[2] as bv32) << 8) | ((b[1] as bv32) << 16) | ((b[0] as bv32) << 24)
    else
      LoadLittleEndian32(b)
  }

  /** Swapping a native load exactly when the host is not little-endian
      yields the little-endian value of the bytes, on either build. */
  lemma NormaliseNativeLoad32(b: seq<bv8>, bigEndianMachine: bool)
    requires |b| == 4
    ensures var v := NativeLoad32(b, bigEndianMachine);
            (if SysIsNotLittleEndian(bigEndianMachine) then Swap32(v) else v)
            == LoadLittleEndian32(b)
  {
    var v := NativeLoad32(b, bigEndianMachine);
    var n := if SysIsNotLittleEndian(bigEndianMachine) then Swap32(v) else v;
    forall i | 0 <= i < 4
      ensures ByteOf32(n, i) == ByteOf32(LoadLittleEndian32(b), i)
    {
    }
    BytesDetermine32(n, LoadLittleEndian32(b));
  }

  // ---------------------------------------------------------------------------
  // BitConcat
  // ---------------------------------------------------------------------------

  /** Three 16-bit chunks placed in successive 16-bit lanes, the first in
      the lowest lane; the upper 16 bits of the result are clear. */
  function BitConcat(lo: bv16, med: bv16, hi: bv16): (r: bv64)
    ensures (r & 0xffff) as bv16 == lo
    ensures ((r >> 16) & 0xffff) as bv16 == med
    ensures ((r >> 32) & 0xffff) as bv16 == hi
    ensures r >> 48 == 0
  {
    (lo as bv64) | ((med as bv64) << 16) | ((hi as bv64) << 32)
  }

  lemma BitConcatExample()
    ensures BitConcat(0x1234, 0x5678, 0x0009) == 0x0009_5678_1234
  {
  }
}
