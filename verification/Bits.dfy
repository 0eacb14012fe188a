/** Bytes and the bits in them, in the two orders the server uses: SETBIT counts from the least
    significant bit of each byte, BITFIELD from the most significant. */
module Bits {
  import opened Powers

  // ---------- one byte ----------

  function Mask(i: nat): bv8
    requires i < 8
  {
    1 << i
  }

  predicate BitOf(b: bv8, i: nat)
    requires i < 8
  {
    (b >> i) & 1 == 1
  }

  /** Bit 0 is the least significant one. */
  lemma BitMasks(b: bv8)
    ensures (BitOf(b, 0) <==> b & 1 != 0) && (BitOf(b, 1) <==> b & 2 != 0)
    ensures (BitOf(b, 2) <==> b & 4 != 0) && (BitOf(b, 3) <==> b & 8 != 0)
    ensures (BitOf(b, 4) <==> b & 16 != 0) && (BitOf(b, 5) <==> b & 32 != 0)
    ensures (BitOf(b, 6) <==> b & 64 != 0) && (BitOf(b, 7) <==> b & 128 != 0)
  {
  }

  function WithBit(b: bv8, i: nat, v: bool): bv8
    requires i < 8
  {
    if v then b | Mask(i) else b & !Mask(i)
  }

  lemma AndBit(a: bv8, b: bv8, k: nat)
    requires k < 8
    ensures BitOf(a & b, k) <==> BitOf(a, k) && BitOf(b, k)
  {
  }

  lemma OrBit(a: bv8, b: bv8, k: nat)
    requires k < 8
    ensures BitOf(a | b, k) <==> BitOf(a, k) || BitOf(b, k)
  {
  }

  lemma XorShift(a: bv8, b: bv8, k: nat)
    requires k < 8
    ensures (a ^ b) >> k == (a >> k) ^ (b >> k)
  {
  }

  lemma XorLast(a: bv8, b: bv8)
    ensures (a ^ b) & 1 == 1 <==> (a & 1 == 1) != (b & 1 == 1)
  {
  }

  lemma XorBit(a: bv8, b: bv8, k: nat)
    requires k < 8
    ensures BitOf(a ^ b, k) <==> BitOf(a, k) != BitOf(b, k)
  {
    XorShift(a, b, k);
    XorLast(a >> k, b >> k);
  }

  lemma NotBit(a: bv8, k: nat)
    requires k < 8
    ensures BitOf(!a, k) <==> !BitOf(a, k)
  {
  }

  lemma MaskBit(i: nat, k: nat)
    requires i < 8 && k < 8
    ensures BitOf(Mask(i), k) <==> i == k
  {
  }

  lemma WithBitOf(b: bv8, i: nat, v: bool, k: nat)
    requires i < 8 && k < 8
    ensures BitOf(WithBit(b, i, v), k) == if k == i then v else BitOf(b, k)
  {
    hide Mask, BitOf;
    MaskBit(i, k);
    OrBit(b, Mask(i), k);
    NotBit(Mask(i), k);
    AndBit(b, !Mask(i), k);
  }

  lemma ZeroBit(k: nat)
    requires k < 8
    ensures !BitOf(0, k)
  {
  }

  // ---------- byte sequences ----------

  /** The bit GETBIT reads; false past the end. */
  predicate Bit(data: seq<bv8>, o: nat) {
    o / 8 < |data| && BitOf(data[o / 8], o % 8)
  }

  /** Extended with zero bytes to at least n. */
  function Grown(data: seq<bv8>, n: nat): (g: seq<bv8>)
    ensures |g| == if |data| < n then n else |data|
  {
    if |data| < n then data + seq(n - |data|, _ => 0) else data
  }

  lemma GrownBit(data: seq<bv8>, n: nat, o: nat)
    ensures Bit(Grown(data, n), o) == Bit(data, o)
  {
    ZeroBit(o % 8);
  }

  function Put(data: seq<bv8>, o: nat, v: bool): (d: seq<bv8>)
    requires o / 8 < |data|
    ensures |d| == |data|
  {
    data[o / 8 := WithBit(data[o / 8], o % 8, v)]
  }

  lemma PutBit(data: seq<bv8>, o: nat, v: bool, k: nat)
    requires o / 8 < |data|
    ensures Bit(Put(data, o, v), k) == if k == o then v else Bit(data, k)
  {
    if k / 8 == o / 8 { WithBitOf(data[o / 8], o % 8, v, k % 8); }
  }

  /** The offset at which GETBIT finds the bit that BITFIELD puts at position j, and back. */
  function Mirror(j: nat): (o: nat)
    ensures o / 8 == j / 8 && o % 8 == 7 - j % 8
  {
    8 * (j / 8) + 7 - j % 8
  }

  lemma MirrorTwice(j: nat)
    ensures Mirror(Mirror(j)) == j
  {
  }

  // ---------- SETBIT ----------

  function SetBit(data: seq<bv8>, o: nat, v: bool): (d: seq<bv8>) {
    Put(Grown(data, o / 8 + 1), o, v)
  }

  lemma SetBitBit(data: seq<bv8>, o: nat, v: bool, k: nat)
    ensures |SetBit(data, o, v)| == if |data| <= o / 8 then o / 8 + 1 else |data|
    ensures Bit(SetBit(data, o, v), k) == if k == o then v else Bit(data, k)
  {
    PutBit(Grown(data, o / 8 + 1), o, v, k);
    GrownBit(data, o / 8 + 1, k);
  }

  // ---------- BITCOUNT ----------

  function OnesBelow(b: bv8, n: nat): nat
    requires n <= 8
  {
    if n == 0 then 0 else OnesBelow(b, n - 1) + if BitOf(b, n - 1) then 1 else 0
  }

  /** The sum of the per-byte counts. */
  function BitCount(data: seq<bv8>): nat {
    if data == [] then 0 else BitCount(data[..|data| - 1]) + OnesBelow(data[|data| - 1], 8)
  }

  function SetOffsets(data: seq<bv8>, n: nat): set<nat> {
    set o: nat | o < n && Bit(data, o)
  }

  lemma OffsetsStep(data: seq<bv8>, n: nat)
    ensures |SetOffsets(data, n + 1)| == |SetOffsets(data, n)| + if Bit(data, n) then 1 else 0
  {
    hide Bit;
    assert SetOffsets(data, n + 1) == SetOffsets(data, n) + if Bit(data, n) then {n} else {};
  }

  lemma {:induction false} BytesOffsets(data: seq<bv8>, n: nat)
    requires data != [] && n <= 8
    ensures |SetOffsets(data, 8 * (|data| - 1) + n)| ==
            |SetOffsets(data, 8 * (|data| - 1))| + OnesBelow(data[|data| - 1], n)
  {
    hide BitOf;
    if n > 0 {
      var m := 8 * (|data| - 1) + n - 1;
      BytesOffsets(data, n - 1);
      OffsetsStep(data, m);
    }
  }

  /** BITCOUNT is the number of offsets at which GETBIT reads 1. */
  lemma {:induction false} BitCountIsOffsets(data: seq<bv8>)
    ensures BitCount(data) == |SetOffsets(data, 8 * |data|)|
  {
    if data == [] {
      assert SetOffsets(data, 0) == {};
    } else {
      var rest := data[..|data| - 1];
      BitCountIsOffsets(rest);
      assert SetOffsets(rest, 8 * |rest|) == SetOffsets(data, 8 * |rest|);
      BytesOffsets(data, 8);
    }
  }

  datatype Write = Write(offset: nat, value: bool)

  /** The bytes after a run of SETBITs on an absent key. */
  function RunWrites(ws: seq<Write>): seq<bv8> {
    if ws == [] then [] else SetBit(RunWrites(ws[..|ws| - 1]), ws[|ws| - 1].offset, ws[|ws| - 1].value)
  }

  /** The offsets whose last write was 1. */
  function LastOnes(ws: seq<Write>): set<nat> {
    if ws == [] then {}
    else
      var w := ws[|ws| - 1];
      if w.value then LastOnes(ws[..|ws| - 1]) + {w.offset} else LastOnes(ws[..|ws| - 1]) - {w.offset}
  }

  lemma {:induction false} WritesRead(ws: seq<Write>, o: nat)
    ensures Bit(RunWrites(ws), o) <==> o in LastOnes(ws)
  {
    if ws != [] {
      var w := ws[|ws| - 1];
      WritesRead(ws[..|ws| - 1], o);
      SetBitBit(RunWrites(ws[..|ws| - 1]), w.offset, w.value, o);
    }
  }

  /** After any run of SETBITs from an absent key, BITCOUNT is the number of distinct offsets
      whose last write was 1. */
  lemma WritesCount(ws: seq<Write>)
    ensures BitCount(RunWrites(ws)) == |LastOnes(ws)|
  {
    var data := RunWrites(ws);
    BitCountIsOffsets(data);
    forall o: nat
      ensures o in SetOffsets(data, 8 * |data|) <==> o in LastOnes(ws)
    {
      WritesRead(ws, o);
    }
    assert SetOffsets(data, 8 * |data|) == LastOnes(ws);
  }

  // ---------- BITFIELD ----------

  /** Arithmetic shift right, as Go shifts an int. */
  function Shift(v: int, n: nat): int {
    if n == 0 then v else Shift(v, n - 1) / 2
  }

  /** Shifting right divides by a power of two, rounding down. */
  lemma {:induction false} ShiftBetween(v: int, n: nat)
    ensures Shift(v, n) * Pow2(n) <= v < (Shift(v, n) + 1) * Pow2(n)
  {
    if n > 0 {
      var q, p := Shift(v, n), Pow2(n - 1);
      ShiftBetween(v, n - 1);
      Halved(Shift(v, n - 1), q, p, v);
    }
  }

  lemma Halved(s: int, q: int, p: nat, v: int)
    requires q == s / 2 && s * p <= v < (s + 1) * p
    ensures q * (2 * p) <= v < (q + 1) * (2 * p)
  {
    assert q * (2 * p) == (2 * q) * p && (q + 1) * (2 * p) == (2 * q + 2) * p;
    assert (s - 2 * q) * p >= 0 && (2 * q + 1 - s) * p >= 0;
  }

  predicate ValueBit(v: int, n: nat) {
    Shift(v, n) % 2 == 1
  }

  /** The first n bits of the field written, most significant first. */
  function PutField(data: seq<bv8>, offset: nat, size: nat, v: int, n: nat): (d: seq<bv8>)
    requires n <= size && (offset + size + 7) / 8 <= |data|
    ensures |d| == |data|
  {
    if n == 0 then data
    else Put(PutField(data, offset, size, v, n - 1), Mirror(offset + n - 1), ValueBit(v, size - n))
  }

  function SetField(data: seq<bv8>, offset: nat, size: nat, v: int): seq<bv8> {
    PutField(Grown(data, (offset + size + 7) / 8), offset, size, v, size)
  }

  lemma {:induction false} PutFieldBit(data: seq<bv8>, offset: nat, size: nat, v: int, n: nat, j: nat)
    requires n <= size && (offset + size + 7) / 8 <= |data|
    ensures Bit(PutField(data, offset, size, v, n), Mirror(j)) ==
            if offset <= j < offset + n then ValueBit(v, size - 1 - (j - offset)) else Bit(data, Mirror(j))
  {
    hide Put, Bit, ValueBit;
    if n > 0 {
      PutFieldBit(data, offset, size, v, n - 1, j);
      PutBit(PutField(data, offset, size, v, n - 1), Mirror(offset + n - 1), ValueBit(v, size - n), Mirror(j));
      MirrorTwice(j);
      MirrorTwice(offset + n - 1);
    }
  }

  /** A field write reaches exactly the bits of the field, aligned or not, and grows the bytes
      only by zeros, to the length the field needs. */
  lemma SetFieldBit(data: seq<bv8>, offset: nat, size: nat, v: int, j: nat)
    ensures |SetField(data, offset, size, v)| ==
            if |data| < (offset + size + 7) / 8 then (offset + size + 7) / 8 else |data|
    ensures Bit(SetField(data, offset, size, v), Mirror(j)) ==
            if offset <= j < offset + size then ValueBit(v, size - 1 - (j - offset)) else Bit(data, Mirror(j))
  {
    PutFieldBit(Grown(data, (offset + size + 7) / 8), offset, size, v, size, j);
    GrownBit(data, (offset + size + 7) / 8, Mirror(j));
  }

  lemma TopBits(b: bv8, i: nat)
    requires i < 8
    ensures BitOf(b, 7 - i) <==> b & ((128 as bv8) >> i) != 0
  {
    BitMasks(b);
    hide BitOf;
    if i == 0 { assert (128 as bv8) >> i == 128; }
    else if i == 1 { assert (128 as bv8) >> i == 64; }
    else if i == 2 { assert (128 as bv8) >> i == 32; }
    else if i == 3 { assert (128 as bv8) >> i == 16; }
    else if i == 4 { assert (128 as bv8) >> i == 8; }
    else if i == 5 { assert (128 as bv8) >> i == 4; }
    else if i == 6 { assert (128 as bv8) >> i == 2; }
    else { assert (128 as bv8) >> i == 1; }
  }

  /** Counted from the most significant bit of the first byte, the field holds its value, most
      significant bit first: bit k from the right is the parity of the value shifted by k. */
  lemma SetFieldByte(data: seq<bv8>, offset: nat, size: nat, v: int, j: nat)
    requires offset <= j < offset + size
    ensures var d := SetField(data, offset, size, v);
            && j / 8 < |d|
            && (d[j / 8] & ((128 as bv8) >> (j % 8)) != 0 <==> Shift(v, offset + size - 1 - j) % 2 == 1)
  {
    hide BitOf, SetField, Shift;
    SetFieldBit(data, offset, size, v, j);
    TopBits(SetField(data, offset, size, v)[j / 8], j % 8);
  }

  /** The first n bits of the field read as a number. */
  function Prefix(data: seq<bv8>, offset: nat, n: nat): nat {
    if n == 0 then 0 else 2 * Prefix(data, offset, n - 1) + if Bit(data, Mirror(offset + n - 1)) then 1 else 0
  }

  /** An 8-bit field is read in two's complement, any other as it stands. */
  function Signed(v: nat, size: nat): int {
    if size == 8 && v >= 128 then v - 256 else v
  }

  /** The value of a field that lies within the bytes. */
  function FieldValue(data: seq<bv8>, offset: nat, size: nat): int {
    Signed(Prefix(data, offset, size), size)
  }

  lemma {:induction false} PrefixBound(data: seq<bv8>, offset: nat, n: nat)
    ensures Prefix(data, offset, n) < Pow2(n)
  {
    if n > 0 { PrefixBound(data, offset, n - 1); }
  }

  function Times(w: nat, s: int): int {
    w * s
  }

  /** The first n bits of the field are the first n bits of v. */
  predicate PrefixHolds(d: seq<bv8>, offset: nat, size: nat, v: int, n: nat)
    requires n <= size
  {
    Shift(v, size - n) == Prefix(d, offset, n) + Times(Pow2(n), Shift(v, size))
  }

  lemma TimesDouble(w: nat, s: int)
    ensures Times(2 * w, s) == 2 * Times(w, s)
  {
    assert (2 * w) * s == 2 * (w * s);
  }

  lemma PrefixHoldsGrows(d: seq<bv8>, offset: nat, size: nat, v: int, n: nat)
    requires 0 < n <= size && PrefixHolds(d, offset, size, v, n - 1)
    requires Prefix(d, offset, n) == 2 * Prefix(d, offset, n - 1) + Shift(v, size - n) % 2
    ensures PrefixHolds(d, offset, size, v, n)
  {
    ShiftPow(v, size - n, n);
    TimesDouble(Pow2(n - 1), Shift(v, size));
    hide Prefix, Pow2, Shift, Times;
  }

  lemma {:induction false} PrefixOfSet(data: seq<bv8>, offset: nat, size: nat, v: int, n: nat)
    requires n <= size
    ensures PrefixHolds(SetField(data, offset, size, v), offset, size, v, n)
  {
    hide SetField, Shift, Prefix;
    if n > 0 {
      hide PrefixHolds;
      PrefixOfSet(data, offset, size, v, n - 1);
      PrefixStep(data, offset, size, v, n);
      PrefixHoldsGrows(SetField(data, offset, size, v), offset, size, v, n);
    } else {
      PrefixHoldsNone(SetField(data, offset, size, v), offset, size, v);
    }
  }

  lemma PrefixHoldsNone(d: seq<bv8>, offset: nat, size: nat, v: int)
    ensures PrefixHolds(d, offset, size, v, 0)
  {
    assert Prefix(d, offset, 0) == 0 && Pow2(0) == 1;
    hide Shift;
  }

  lemma ShiftPow(v: int, k: nat, n: nat)
    requires n > 0
    ensures Shift(v, k + 1) == Shift(v, k) / 2 && Pow2(n) == 2 * Pow2(n - 1)
  {
  }

  lemma PrefixStep(data: seq<bv8>, offset: nat, size: nat, v: int, n: nat)
    requires 0 < n <= size
    ensures var d := SetField(data, offset, size, v);
            Prefix(d, offset, n) == 2 * Prefix(d, offset, n - 1) + Shift(v, size - n) % 2
  {
    hide SetField, Bit, Shift;
    SetFieldBit(data, offset, size, v, offset + n - 1);
  }

  /** The first i bits of the field at their final weights. */
  function Weighed(data: seq<bv8>, offset: nat, size: nat, i: nat): nat
    requires i <= size
  {
    Prefix(data, offset, i) * Pow2(size - i)
  }

  /** One bit more, with every bit so far at its final weight. */
  lemma PrefixWeigh(data: seq<bv8>, offset: nat, size: nat, i: nat)
    requires i < size
    ensures Weighed(data, offset, size, i + 1) ==
            Weighed(data, offset, size, i) + if Bit(data, Mirror(offset + i)) then Pow2(size - 1 - i) else 0
  {
    hide Bit;
    var p, w := Prefix(data, offset, i), Pow2(size - 1 - i);
    assert Pow2(size - i) == 2 * w;
    assert p * (2 * w) == (2 * p) * w;
    if Bit(data, Mirror(offset + i)) {
      assert (2 * p + 1) * w == (2 * p) * w + w;
    }
  }

  lemma PrefixEnds(data: seq<bv8>, offset: nat, size: nat)
    ensures Weighed(data, offset, size, 0) == 0
    ensures Weighed(data, offset, size, size) == Prefix(data, offset, size)
  {
  }

  predicate Fits(size: nat, v: int) {
    (size == 8 && -128 <= v <= 127) || (size == 16 && 0 <= v <= 65535)
  }

  lemma SetThenPrefix(data: seq<bv8>, offset: nat, size: nat, v: int)
    ensures v == Prefix(SetField(data, offset, size, v), offset, size) + Pow2(size) * Shift(v, size)
    ensures Prefix(SetField(data, offset, size, v), offset, size) < Pow2(size)
  {
    PrefixOfSet(data, offset, size, v, size);
    PrefixBound(SetField(data, offset, size, v), offset, size);
  }

  lemma SignedFits(size: nat, v: int, p: nat, w: nat, s: int)
    requires Fits(size, v) && p < w && w == (if size == 8 then 256 else 65536) && v == p + w * s
    ensures Signed(p, size) == v
  {
    if size == 8 {
      assert v == p + 256 * s;
    } else {
      assert v == p + 65536 * s;
    }
  }

  /** Writing a value in the range of its type and reading the field gives the value. */
  lemma SetThenGet(data: seq<bv8>, offset: nat, size: nat, v: int)
    requires Fits(size, v)
    ensures FieldValue(SetField(data, offset, size, v), offset, size) == v
  {
    hide SetField, Prefix, Shift, Pow2;
    SetThenPrefix(data, offset, size, v);
    Pow2OfWords();
    SignedFits(size, v, Prefix(SetField(data, offset, size, v), offset, size), Pow2(size), Shift(v, size));
  }

  /** Fields that do not overlap do not disturb each other. */
  lemma {:induction false} OtherFieldKept(data: seq<bv8>, offset: nat, size: nat, v: int, other: nat, n: nat)
    requires other + n <= offset || offset + size <= other
    ensures Prefix(SetField(data, offset, size, v), other, n) == Prefix(data, other, n)
  {
    hide SetField, Bit;
    if n > 0 {
      OtherFieldKept(data, offset, size, v, other, n - 1);
      SetFieldBit(data, offset, size, v, other + n - 1);
    }
  }

  /** One BITFIELD increment of a present field: refused, with no change, when out of range. */
  function Incremented(data: seq<bv8>, offset: nat, size: nat, step: int): seq<bv8> {
    var v := FieldValue(data, offset, size) + step;
    if Fits(size, v) then SetField(data, offset, size, v) else data
  }

  function RunIncrements(data: seq<bv8>, offset: nat, size: nat, steps: seq<int>): seq<bv8> {
    if steps == [] then data
    else Incremented(RunIncrements(data, offset, size, steps[..|steps| - 1]), offset, size, steps[|steps| - 1])
  }

  /** A counter that refuses to leave the range of its type. */
  function Counted(size: nat, v: int, steps: seq<int>): int {
    if steps == [] then v
    else
      var u := Counted(size, v, steps[..|steps| - 1]);
      if Fits(size, u + steps[|steps| - 1]) then u + steps[|steps| - 1] else u
  }

  function Total(steps: seq<int>): int {
    if steps == [] then 0 else Total(steps[..|steps| - 1]) + steps[|steps| - 1]
  }

  /** After any run of increments the field reads as a counter that refuses to leave its range; if
      every partial sum stays in range, that is the value at the start plus all increments. */
  lemma {:induction false} IncrementsAdd(data: seq<bv8>, offset: nat, size: nat, steps: seq<int>)
    ensures FieldValue(RunIncrements(data, offset, size, steps), offset, size) ==
            Counted(size, FieldValue(data, offset, size), steps)
    ensures (forall k | 1 <= k <= |steps| :: Fits(size, FieldValue(data, offset, size) + Total(steps[..k])))
            ==> FieldValue(RunIncrements(data, offset, size, steps), offset, size) ==
                FieldValue(data, offset, size) + Total(steps)
  {
    hide FieldValue, SetField, Fits;
    if steps != [] {
      var n := |steps| - 1;
      IncrementsAdd(data, offset, size, steps[..n]);
      var d := RunIncrements(data, offset, size, steps[..n]);
      var v := FieldValue(d, offset, size) + steps[n];
      if Fits(size, v) { SetThenGet(d, offset, size, v); }
      assert forall k | 1 <= k <= n :: steps[..n][..k] == steps[..k];
      assert steps[..n + 1] == steps;
    }
  }
}
