/**
 Slices of bit buffers: `Buffer::slice<bool>` (velox/buffer/Buffer.cpp) and the word-by-word copy it relies on,
 `bits::copyBits` (velox/common/base/BitUtil.h).

 Memory and words are sequences of bits, the least significant first: bit `k` of byte `j` is bit `8 * j + k`.
 */
module BitSlices {
  import opened Options

  // ----- words -----

  function ShiftRight(word: seq<bool>, n: nat): (r: seq<bool>)
    requires n <= |word|
    ensures |r| == |word| && forall i :: 0 <= i < |word| ==> r[i] == (i + n < |word| && word[i + n])
  {
    word[n..] + seq(n, _ => false)
  }

  /** A byte, widened to `width` bits and shifted left. */
  function ByteShiftedLeft(byte: seq<bool>, n: nat, width: nat): (r: seq<bool>)
    requires |byte| == 8 && n <= width <= n + 8
    ensures |r| == width && forall i :: 0 <= i < width ==> r[i] == (n <= i && byte[i - n])
  {
    seq(n, _ => false) + byte[..width - n]
  }

  function Or(a: seq<bool>, b: seq<bool>): (r: seq<bool>)
    requires |a| == |b|
    ensures |r| == |a| && forall i :: 0 <= i < |a| ==> r[i] == (a[i] || b[i])
  {
    seq(|a|, i requires 0 <= i < |a| => a[i] || b[i])
  }

  predicate IsWidth(width: nat) {
    width in {8, 16, 32, 64}
  }

  /** The word that starts at a byte, shifted down, with what the next byte adds if the bits go past the word. */
  function LoadAt(memory: seq<bool>, address: nat, bit: nat, numBits: nat, width: nat): (r: seq<bool>)
    requires IsWidth(width) && bit < 8 && 0 < numBits <= width
    requires address + width <= |memory| && (numBits + bit > width ==> address + width + 8 <= |memory|)
    ensures |r| == width && forall i :: 0 <= i < numBits ==> r[i] == memory[address + bit + i]
  {
    var word := memory[address..address + width];
    if bit == 0 then word
    else if numBits + bit <= width then ShiftRight(word, bit)
    else
      var lastByte := memory[address + width..address + width + 8];
      var low, high := ShiftRight(word, bit), ByteShiftedLeft(lastByte, width - bit, width);
      assert forall i :: 0 <= i < width - bit ==> low[i] == memory[address + bit + i] && !high[i];
      assert forall i :: width - bit <= i < width ==>
          !low[i] && high[i] == lastByte[i - (width - bit)] == memory[address + bit + i];
      Or(low, high)
  }

  /** `loadBits`: at least `numBits` bits from `bitOffset` on, as a word of `width` bits. */
  function LoadBits(memory: seq<bool>, bitOffset: nat, numBits: nat, width: nat): (r: seq<bool>)
    requires |memory| % 8 == 0 && IsWidth(width) && 0 < numBits <= width && (width == 8 || numBits == width)
    requires bitOffset + numBits <= |memory|
    ensures |r| == width && forall i :: 0 <= i < numBits ==> r[i] == memory[bitOffset + i]
  {
    LoadAt(memory, 8 * (bitOffset / 8), bitOffset % 8, numBits, width)
  }

  /** `storeBits`: the `numBits` low bits of `word` at `offset`; bits below and above are kept. */
  method StoreBits(target: array<bool>, offset: nat, word: seq<bool>, numBits: nat)
    requires target.Length % 8 == 0 && IsWidth(|word|) && 0 < numBits <= |word| && (|word| == 8 || numBits == |word|)
    requires offset + numBits <= target.Length
    modifies target
    ensures forall i :: 0 <= i < target.Length ==>
              target[i] == if offset <= i < offset + numBits then word[i - offset] else old(target[i])
  {
    var width, address, bitOffset := |word|, 8 * (offset / 8), offset % 8;
    // The mask of the first word is cut off at its width.
    forall i | 0 <= i < width {
      target[address + i] := if bitOffset <= i < bitOffset + numBits then word[i - bitOffset] else target[address + i];
    }
    if numBits + bitOffset > width {
      var lastByteBits := bitOffset + numBits - width;
      forall i | 0 <= i < 8 {
        target[address + width + i] :=
          if i < lastByteBits then word[width - bitOffset + i] else target[address + width + i];
      }
    }
  }

  /** `copyBits`: words of 64 bits, then at most one of 32 and one of 16, then bytes, the last perhaps in part. */
  method CopyBits(source: seq<bool>, sourceOffset: nat, target: array<bool>, targetOffset: nat, numBits: nat)
    requires |source| % 8 == 0 && target.Length % 8 == 0
    requires sourceOffset + numBits <= |source| && targetOffset + numBits <= target.Length
    modifies target
    ensures forall i :: 0 <= i < target.Length ==>
              target[i] == if targetOffset <= i < targetOffset + numBits
                           then source[sourceOffset + i - targetOffset] else old(target[i])
  {
    var i := 0;
    while i + 64 <= numBits
      invariant i <= numBits
      invariant forall k :: 0 <= k < target.Length ==>
                  target[k] == if targetOffset <= k < targetOffset + i
                               then source[sourceOffset + k - targetOffset] else old(target[k])
    {
      CopyWord(source, sourceOffset + i, target, targetOffset + i, 64, 64);
      i := i + 64;
    }
    if i + 32 <= numBits {
      CopyWord(source, sourceOffset + i, target, targetOffset + i, 32, 32);
      i := i + 32;
    }
    if i + 16 <= numBits {
      CopyWord(source, sourceOffset + i, target, targetOffset + i, 16, 16);
      i := i + 16;
    }
    while i < numBits
      invariant i <= numBits
      invariant forall k :: 0 <= k < target.Length ==>
                  target[k] == if targetOffset <= k < targetOffset + i
                               then source[sourceOffset + k - targetOffset] else old(target[k])
    {
      var copied := if numBits - i < 8 then numBits - i else 8;
      CopyWord(source, sourceOffset + i, target, targetOffset + i, copied, 8);
      i := i + copied;
    }
  }

  method CopyWord(source: seq<bool>, sourceOffset: nat, target: array<bool>, targetOffset: nat, numBits: nat,
                  width: nat)
    requires |source| % 8 == 0 && target.Length % 8 == 0
    requires IsWidth(width) && 0 < numBits <= width && (width == 8 || numBits == width)
    requires sourceOffset + numBits <= |source| && targetOffset + numBits <= target.Length
    modifies target
    ensures forall i :: 0 <= i < target.Length ==>
              target[i] == if targetOffset <= i < targetOffset + numBits
                           then source[sourceOffset + i - targetOffset] else old(target[i])
  {
    var word := LoadBits(source, sourceOffset, numBits, width);
    StoreBits(target, targetOffset, word, numBits);
  }

  // ----- slices -----

  function Nbytes(bits: nat): nat {
    (bits + 7) / 8
  }

  /** A buffer that owns its bits, or a view of whole bytes of another. */
  datatype BitBuffer = Owned(bits: seq<bool>) | View(parent: BitBuffer, byteOffset: nat, byteLength: nat)

  function Bits(b: BitBuffer): seq<bool> {
    match b
    case Owned(bits) => bits
    case View(parent, byteOffset, byteLength) =>
      if 8 * (byteOffset + byteLength) <= |Bits(parent)|
      then Bits(parent)[8 * byteOffset..8 * (byteOffset + byteLength)] else []
  }

  predicate WholeBytes(b: BitBuffer) {
    |Bits(b)| % 8 == 0
  }

  /** What a slice is for: its bits are those of the source from `offset` on. */
  predicate IsSlice(r: BitBuffer, b: BitBuffer, offset: nat, length: nat) {
    && WholeBytes(r) && |Bits(r)| == 8 * Nbytes(length) && offset + length <= |Bits(b)|
    && forall i :: 0 <= i < length ==> Bits(r)[i] == Bits(b)[offset + i]
  }

  lemma ViewIsSlice(b: BitBuffer, byteOffset: nat, length: nat)
    requires WholeBytes(b) && 8 * byteOffset + 8 * Nbytes(length) <= |Bits(b)|
    ensures IsSlice(View(b, byteOffset, Nbytes(length)), b, 8 * byteOffset, length)
  {
  }

  /**
   `slice<bool>`.  At a byte boundary it is a checked view; elsewhere it is an unchecked copy, so the caller must keep
   the range within the buffer.
   */
  method Slice(b: BitBuffer, offset: nat, length: nat) returns (r: Option<BitBuffer>)
    requires WholeBytes(b)
    requires offset % 8 != 0 ==> offset + length <= |Bits(b)|
    ensures r.Some? <==> offset + length <= |Bits(b)|
    ensures r.Some? ==> IsSlice(r.value, b, offset, length)
    ensures r.Some? ==> (r.value.View? <==> offset % 8 == 0)
  {
    if offset % 8 == 0 {
      var size := |Bits(b)| / 8;
      assert offset == 8 * Nbytes(offset) && |Bits(b)| == 8 * size;
      if Nbytes(offset) > size || Nbytes(length) > size - Nbytes(offset) {
        return None;
      }
      ViewIsSlice(b, Nbytes(offset), length);
      return Some(View(b, Nbytes(offset), Nbytes(length)));
    }
    var ans := new bool[8 * Nbytes(length)];
    CopyBits(Bits(b), offset, ans, 0, length);
    return Some(Owned(ans[..]));
  }

  /** A slice of a slice agrees bit for bit with the one slice at the summed offset, whichever of them are copies. */
  lemma SliceOfSlice(b: BitBuffer, first: BitBuffer, second: BitBuffer, direct: BitBuffer,
                     o1: nat, l1: nat, o2: nat, l2: nat)
    requires IsSlice(first, b, o1, l1) && IsSlice(second, first, o2, l2) && IsSlice(direct, b, o1 + o2, l2)
    requires o2 + l2 <= l1
    ensures Bits(second)[..l2] == Bits(direct)[..l2]
  {
    forall i | 0 <= i < l2 ensures Bits(second)[i] == Bits(direct)[i] {
      assert Bits(second)[i] == Bits(first)[o2 + i] == Bits(b)[o1 + (o2 + i)];
    }
  }
}
