/** The byte-swizzled memory array: words are stored in host (little-endian) order
    at their own address, narrower accesses flip low address bits. Seen through the
    flip it is one big-endian memory. */
module Swizzle {

  type byte = bv8

  type Bytes = seq<byte>

  /** `a ^ 3`: 0, 1, 2, 3 become 3, 2, 1, 0 within their group of four. */
  function ByteAddress(a: nat): nat { a + 3 - 2 * (a % 4) }

  /** `a ^ 2` */
  function HalfAddress(a: nat): nat { if a % 4 < 2 then a + 2 else a - 2 }

  datatype Size = Byte | Half | Word | Dword

  function Width(z: Size): (n: nat)
    ensures n in {1, 2, 4, 8}
  {
    match z case Byte => 1 case Half => 2 case Word => 4 case Dword => 8
  }

  /** Where an access of size `z` at address `a` starts in the array. */
  function RawAddress(z: Size, a: nat): nat {
    match z
    case Byte => ByteAddress(a)
    case Half => HalfAddress(a)
    case Word => a
    case Dword => a
  }

  /** A value as `Width(z)` bytes, most significant first, in array order: the
      little-endian image of each word, upper word first. */
  function ToRaw(z: Size, v: Bytes): (r: Bytes)
    requires |v| == Width(z)
    ensures |r| == |v|
  {
    match z
    case Byte => v
    case Half => [v[1], v[0]]
    case Word => [v[3], v[2], v[1], v[0]]
    case Dword => [v[3], v[2], v[1], v[0], v[7], v[6], v[5], v[4]]
  }

  lemma RawTwice(z: Size, v: Bytes)
    requires |v| == Width(z)
    ensures ToRaw(z, ToRaw(z, v)) == v
  {}

  predicate Fits(raw: Bytes, z: Size, a: nat) { |raw| % 8 == 0 && a % Width(z) == 0 && a + Width(z) <= |raw| }

  function Patch(m: Bytes, at: nat, bs: Bytes): (r: Bytes)
    requires at + |bs| <= |m|
    ensures |r| == |m|
    ensures forall i :: 0 <= i < |m| ==> r[i] == if at <= i < at + |bs| then bs[i - at] else m[i]
  {
    m[..at] + bs + m[at + |bs|..]
  }

  lemma RawAddressFits(raw: Bytes, z: Size, a: nat)
    requires Fits(raw, z, a)
    ensures RawAddress(z, a) + Width(z) <= |raw|
  {
    var n := |raw| / 8;
    match z
    case Byte => ByteAddressFits(a, |raw|);
    case Half =>
      EvenInGroup(a);
      HalfFits(a / 4, a % 4, 2 * n);
    case Word =>
    case Dword =>
  }

  lemma HalfFits(q: nat, x: nat, n: nat)
    requires (x == 0 || x == 2) && 4 * q + x + 2 <= 4 * n
    ensures HalfAddress(4 * q + x) + 2 <= 4 * n
  {}

  function ReadRaw(raw: Bytes, z: Size, a: nat): (v: Bytes)
    requires Fits(raw, z, a)
    ensures |v| == Width(z)
  {
    RawAddressFits(raw, z, a);
    ToRaw(z, raw[RawAddress(z, a)..RawAddress(z, a) + Width(z)])
  }

  function WriteRaw(raw: Bytes, z: Size, a: nat, v: Bytes): (r: Bytes)
    requires Fits(raw, z, a) && |v| == Width(z)
    ensures |r| == |raw|
  {
    RawAddressFits(raw, z, a);
    Patch(raw, RawAddress(z, a), ToRaw(z, v))
  }

  lemma ByteAddressStays(a: nat)
    ensures ByteAddress(a) % 4 == 3 - a % 4
    ensures ByteAddress(a) - ByteAddress(a) % 4 == a - a % 4
  {}

  lemma ByteAddressFits(a: nat, n: nat)
    requires a < n && n % 8 == 0
    ensures ByteAddress(a) < n
  {}

  function RawByte(raw: Bytes, a: nat): byte
    requires |raw| % 8 == 0 && a < |raw|
  {
    ByteAddressFits(a, |raw|);
    raw[ByteAddress(a)]
  }

  /** The big-endian memory an array stands for. */
  function BigEndian(raw: Bytes): (m: Bytes)
    requires |raw| % 8 == 0
    ensures |m| == |raw| && forall a :: 0 <= a < |raw| ==> m[a] == RawByte(raw, a)
  {
    seq(|raw|, a requires 0 <= a < |raw| => RawByte(raw, a))
  }

  /** Byte `i` of an access, in array order and in address order. */
  lemma RawIndex(z: Size, a: nat, i: nat, v: Bytes)
    requires a % Width(z) == 0 && i < Width(z) && |v| == Width(z)
    ensures RawAddress(z, a) <= ByteAddress(a + i) < RawAddress(z, a) + Width(z)
    ensures ToRaw(z, v)[ByteAddress(a + i) - RawAddress(z, a)] == v[i]
  {
    RawOffset(z, a, i);
    hide ByteAddress, RawAddress;
    RawOrder(z, i, v);
  }

  /** The place byte `i` of an access takes within it. */
  function Place(z: Size, i: nat): nat
    requires i < Width(z)
    ensures Place(z, i) < Width(z)
  {
    match z
    case Byte => 0
    case Half => 1 - i
    case Word => 3 - i
    case Dword => if i < 4 then 3 - i else 11 - i
  }

  lemma RawOrder(z: Size, i: nat, v: Bytes)
    requires i < Width(z) && |v| == Width(z)
    ensures ToRaw(z, v)[Place(z, i)] == v[i]
  {}

  lemma RawOffset(z: Size, a: nat, i: nat)
    requires a % Width(z) == 0 && i < Width(z)
    ensures ByteAddress(a + i) == RawAddress(z, a) + Place(z, i)
  {
    match z
    case Byte =>
    case Half =>
      EvenInGroup(a);
      InGroup(a / 4, a % 4 + i);
    case Word => InGroup(a / 4, i);
    case Dword => InGroup(if i < 4 then 2 * (a / 8) else 2 * (a / 8) + 1, if i < 4 then i else i - 4);
  }

  lemma InGroup(q: nat, x: nat)
    requires x < 4
    ensures ByteAddress(4 * q + x) == 4 * q + 3 - x
  {}

  lemma ByteAddressInvolutive(a: nat)
    ensures ByteAddress(ByteAddress(a)) == a
  {
    ByteAddressStays(a);
  }

  /** Outside the access no byte of the array is touched. */
  lemma RawOutside(z: Size, a: nat, b: nat)
    requires a % Width(z) == 0 && !(a <= b < a + Width(z))
    ensures !(RawAddress(z, a) <= ByteAddress(b) < RawAddress(z, a) + Width(z))
  {
    ByteAddressStays(b);
    match z
    case Byte => ByteAddressInvolutive(a); ByteAddressInvolutive(b);
    case Half => HalfOutside(a, b);
    case Word => WordOutside(a, b);
    case Dword => DwordOutside(a, b);
  }

  lemma WordOutside(a: nat, b: nat)
    requires a % 4 == 0 && !(a <= b < a + 4)
    ensures !(a <= ByteAddress(b) < a + 4)
  {}

  lemma DwordOutside(a: nat, b: nat)
    requires a % 8 == 0 && !(a <= b < a + 8)
    ensures !(a <= ByteAddress(b) < a + 8)
  {}

  lemma HalfOutside(a: nat, b: nat)
    requires a % 2 == 0 && !(a <= b < a + 2)
    ensures !(HalfAddress(a) <= ByteAddress(b) < HalfAddress(a) + 2)
  {
    EvenInGroup(a);
    GroupsOutside(a / 4, a % 4, b / 4, b % 4);
  }

  lemma EvenInGroup(a: nat)
    requires a % 2 == 0
    ensures a % 4 == 0 || a % 4 == 2
  {}

  lemma GroupsOutside(q: nat, x: nat, p: nat, y: nat)
    requires x == 0 || x == 2
    requires y < 4 && !(4 * q + x <= 4 * p + y < 4 * q + x + 2)
    ensures var h, c := (if x == 0 then 4 * q + 2 else 4 * q), 4 * p + 3 - y;
      !(h <= c < h + 2)
  {}

  /** Every sized read returns the big-endian bytes at its address. */
  lemma ReadIsBigEndian(raw: Bytes, z: Size, a: nat)
    requires Fits(raw, z, a)
    ensures ReadRaw(raw, z, a) == BigEndian(raw)[a..a + Width(z)]
  {
    hide ByteAddress, HalfAddress, RawAddress, ToRaw;
    RawAddressFits(raw, z, a);
    var r := RawAddress(z, a);
    var bs := raw[r..r + Width(z)];
    var v := ToRaw(z, bs);
    RawTwice(z, bs);
    forall i | 0 <= i < Width(z) ensures v[i] == BigEndian(raw)[a + i] {
      RawIndex(z, a, i, v);
      assert ToRaw(z, v)[ByteAddress(a + i) - r] == raw[ByteAddress(a + i)];
    }
  }

  /** Every sized write stores big-endian bytes at its address and nothing else. */
  lemma WriteIsBigEndian(raw: Bytes, z: Size, a: nat, v: Bytes)
    requires Fits(raw, z, a) && |v| == Width(z)
    ensures BigEndian(WriteRaw(raw, z, a, v)) == Patch(BigEndian(raw), a, v)
  {
    hide ByteAddress, HalfAddress, RawAddress, ToRaw;
    var r := WriteRaw(raw, z, a, v);
    RawAddressFits(raw, z, a);
    forall b | 0 <= b < |raw| ensures BigEndian(r)[b] == Patch(BigEndian(raw), a, v)[b] {
      ByteAddressFits(b, |raw|);
      if a <= b < a + Width(z) {
        RawIndex(z, a, b - a, v);
      } else {
        RawOutside(z, a, b);
      }
    }
  }
}
