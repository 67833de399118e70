/** The ND copy packet: bit fields that the host packs into four argument words and that
    the controller takes apart again. Words are 64 bits wide; a parameter of n bits is a
    word below 2^n. */
module Packet {

  const MAX4: bv64 := 0xf
  const MAX8: bv64 := 0xff
  const MAX16: bv64 := 0xffff
  const MAX32: bv64 := 0xffff_ffff

  function Word0(space: bv64, channel: bv64, col: bv64, burst: bv64, direction: bv64): bv64 {
    0 | (space << 16) | (channel << 24) | (col << 32) | (burst << 52) | (direction << 60)
  }

  function Word2(length1d: bv64, length2d: bv64, stride2d: bv64): bv64 {
    length1d | (length2d << 32) | (stride2d << 48)
  }

  function Word3(length3d: bv64, stride3d: bv64, length4d: bv64, stride4d: bv64): bv64 {
    length3d | (stride3d << 16) | (length4d << 32) | (stride4d << 48)
  }

  // What the controller reads.
  function MemorySpace(w0: bv64): bv64 { (w0 >> 16) & 0x00ff }
  function Channel(w0: bv64): bv64 { (w0 >> 24) & 0x00ff }
  function Col(w0: bv64): bv64 { (w0 >> 32) & 0x00ff }
  function Direction(w0: bv64): bv64 { (w0 >> 60) & 0x000f }
  function Length1d(w2: bv64): bv64 { (w2 >> 0) & 0xffffffff }
  function Length2d(w2: bv64): bv64 { (w2 >> 32) & 0x0000ffff }
  function Stride2d(w2: bv64): bv64 { (w2 >> 48) & 0x0000ffff }
  function Length3d(w3: bv64): bv64 { (w3 >> 0) & 0x0000ffff }
  function Stride3d(w3: bv64): bv64 { (w3 >> 16) & 0x0000ffff }
  function Length4d(w3: bv64): bv64 { (w3 >> 32) & 0x0000ffff }
  function Stride4d(w3: bv64): bv64 { (w3 >> 48) & 0x0000ffff }

  /** Column, channel and memory space always come back; the direction exactly when it fits
      four bits. */
  lemma Word0RoundTrip(space: bv64, channel: bv64, col: bv64, burst: bv64, direction: bv64)
    requires space <= MAX8 && channel <= MAX8 && col <= MAX8 && burst <= MAX8 && direction <= MAX8
    ensures var w := Word0(space, channel, col, burst, direction);
      && MemorySpace(w) == space && Channel(w) == channel && Col(w) == col
      && (Direction(w) == direction <==> direction <= MAX4)
  {
  }

  /** The whole 2-d part comes back exactly when length and stride fit 16 bits. */
  lemma Word2RoundTrip(length1d: bv64, length2d: bv64, stride2d: bv64)
    requires length1d <= MAX32 && length2d <= MAX32 && stride2d <= MAX32
    ensures var w := Word2(length1d, length2d, stride2d);
      && Length1d(w) == length1d
      && (Length2d(w) == length2d && Stride2d(w) == stride2d <==> length2d <= MAX16 && stride2d <= MAX16)
  {
  }

  lemma Word3Fields(length3d: bv64, stride3d: bv64, length4d: bv64, stride4d: bv64)
    requires length3d <= MAX32 && stride3d <= MAX32 && length4d <= MAX32 && stride4d <= MAX32
    ensures var w := Word3(length3d, stride3d, length4d, stride4d);
      && (Length3d(w) == length3d <==> length3d <= MAX16)
      && (length3d <= MAX16 ==> (Stride3d(w) == stride3d <==> stride3d <= MAX16))
      && (length3d <= MAX16 && stride3d <= MAX16 ==> (Length4d(w) == length4d <==> length4d <= MAX16))
      && (length4d <= MAX16 ==> (Stride4d(w) == stride4d <==> stride4d <= MAX16))
  {
  }

  /** The 3-d and 4-d parts come back exactly when all four values fit 16 bits. */
  lemma Word3RoundTrip(length3d: bv64, stride3d: bv64, length4d: bv64, stride4d: bv64)
    requires length3d <= MAX32 && stride3d <= MAX32 && length4d <= MAX32 && stride4d <= MAX32
    ensures var w := Word3(length3d, stride3d, length4d, stride4d);
      Length3d(w) == length3d && Stride3d(w) == stride3d && Length4d(w) == length4d && Stride4d(w) == stride4d
      <==> length3d <= MAX16 && stride3d <= MAX16 && length4d <= MAX16 && stride4d <= MAX16
  {
    Word3Fields(length3d, stride3d, length4d, stride4d);
  }

  /** Where the fields stand: the memory space at bit 16, the channel at 24, the column at 32, the burst
      length at 52 and the direction at 60. */
  lemma Word0Layout(space: bv64, channel: bv64, col: bv64, burst: bv64, direction: bv64)
    requires space <= MAX8 && channel <= MAX8 && col <= MAX8 && burst <= MAX8 && direction <= MAX4
    ensures Word0(space, channel, col, burst, direction)
         == space * 0x1_0000 + channel * 0x100_0000 + col * 0x1_0000_0000
            + burst * 0x10_0000_0000_0000 + direction * 0x1000_0000_0000_0000
    ensures (Word0(space, channel, col, burst, direction) >> 52) & 0x00ff == burst
  {
  }

  lemma Word2Layout(length1d: bv64, length2d: bv64, stride2d: bv64)
    requires length1d <= MAX32 && length2d <= MAX16 && stride2d <= MAX16
    ensures Word2(length1d, length2d, stride2d)
         == length1d + length2d * 0x1_0000_0000 + stride2d * 0x1_0000_0000_0000
  {
  }

  lemma Word3Layout(length3d: bv64, stride3d: bv64, length4d: bv64, stride4d: bv64)
    requires length3d <= MAX16 && stride3d <= MAX16 && length4d <= MAX16 && stride4d <= MAX16
    ensures Word3(length3d, stride3d, length4d, stride4d)
         == length3d + stride3d * 0x1_0000 + length4d * 0x1_0000_0000 + stride4d * 0x1_0000_0000_0000
  {
  }

  /** A dispatch packet in the ring. */
  class DispatchPacket {
    const arg: array<bv64>

    constructor ()
      ensures fresh(arg) && arg.Length == 4
    {
      arg := new bv64[4](_ => 0);
    }

    /** air_packet_nd_memcpy: assembles the argument words field by field. */
    method NdMemcpy(
      col: bv64, direction: bv64, channel: bv64, burst: bv64, space: bv64, physAddr: bv64,
      length1d: bv64, length2d: bv64, stride2d: bv64, length3d: bv64, stride3d: bv64, length4d: bv64, stride4d: bv64)
      requires arg.Length == 4
      modifies arg
      ensures arg[0] == Word0(space, channel, col, burst, direction)
      ensures arg[1] == physAddr
      ensures arg[2] == Word2(length1d, length2d, stride2d)
      ensures arg[3] == Word3(length3d, stride3d, length4d, stride4d)
    {
      arg[0] := 0;
      arg[0] := arg[0] | (space << 16);
      arg[0] := arg[0] | (channel << 24);
      arg[0] := arg[0] | (col << 32);
      arg[0] := arg[0] | (burst << 52);
      arg[0] := arg[0] | (direction << 60);
      arg[1] := physAddr;
      arg[2] := length1d;
      arg[2] := arg[2] | (length2d << 32);
      arg[2] := arg[2] | (stride2d << 48);
      arg[3] := length3d;
      arg[3] := arg[3] | (stride3d << 16);
      arg[3] := arg[3] | (length4d << 32);
      arg[3] := arg[3] | (stride4d << 48);
    }
  }
}
