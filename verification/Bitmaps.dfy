/** Byte slices held under keys, changed in place by SETBIT, BITOP and BITFIELD. */
module Bitmaps {
  import opened Bits
  import opened BitOps
  import opened Powers
  import opened Results

  /** The field width of the types BITFIELD stores; 0 for any other type. */
  function SizeOf(bitType: string): nat {
    if bitType == "i8" then 8 else if bitType == "u16" then 16 else 0
  }

  function MaxOf(bitType: string): int {
    match bitType
    case "i8" => 127
    case "u8" => 255
    case "i16" => 32767
    case "u16" => 65535
    case _ => 0
  }

  function MinOf(bitType: string): int {
    match bitType
    case "i8" => -128
    case "i16" => -32768
    case _ => 0
  }

  /** The types BITFIELD writes, with their ranges. */
  lemma FitsRanges(bitType: string, v: int)
    ensures Fits(SizeOf(bitType), v) <==> (bitType == "i8" && -128 <= v <= 127) || (bitType == "u16" && 0 <= v <= 65535)
  {
  }

  predicate Holds(data: seq<bv8>, offset: nat, size: nat) {
    size > 0 && (offset + size + 7) / 8 <= |data|
  }

  predicate Injective<T(==)>(m: map<string, T>) {
    forall k, l | k in m && l in m && k != l :: m[k] != m[l]
  }

  lemma InjectiveUpdate<T>(m: map<string, T>, key: string, x: T)
    requires Injective(m)
    ensures Injective(m[key := x]) <==> forall k | k in m && k != key :: m[k] != x
    ensures key in m && m[key] == x ==> Injective(m[key := x])
  {
    var u := m[key := x];
    if Injective(u) {
      forall k | k in m && k != key
        ensures m[k] != x
      {
        assert u[k] == m[k] && u[key] == x;
      }
    }
  }

  class Store {
    var slices: map<string, array<bv8>>

    /** The bytes under a key; none when it is absent. */
    ghost function Bytes(key: string): seq<bv8>
      reads this, if key in slices then {slices[key]} else {}
    {
      if key in slices then slices[key][..] else []
    }

    /** No two keys hold the same slice. */
    ghost predicate Unshared()
      reads this
    {
      Injective(slices)
    }

    /** A write under a key shows under another one if and only if that holds the same slice and the
        write was made in place. */
    twostate predicate OthersFollow(key: string)
      reads this, slices.Values
    {
      forall other | other in old(slices) && other != key ::
        && other in slices
        && slices[other] == old(slices)[other]
        && Bytes(other) ==
           if key in old(slices) && key in slices && slices[key] == old(slices)[key] == slices[other]
           then Bytes(key) else old(Bytes(other))
    }

    constructor ()
      ensures slices == map[]
    {
      slices := map[];
    }

    // ---------- bits ----------

    method SETBIT(key: string, offset: int, value: int) returns (prev: int)
      modifies this, if key in slices then {slices[key]} else {}
      ensures offset < 0 ==> slices == old(slices) && Bytes(key) == old(Bytes(key)) && prev == 0
      ensures offset >= 0 ==> Bytes(key) == SetBit(old(Bytes(key)), offset, value == 1)
      ensures offset >= 0 ==> prev == if old(Bit(Bytes(key), offset)) then 1 else 0
      ensures offset >= 0 ==> key in slices && slices == old(slices)[key := slices[key]]
      ensures offset >= 0 ==> if key in old(slices) && offset / 8 < old(slices)[key].Length
                              then slices[key] == old(slices)[key] else fresh(slices[key])
      ensures OthersFollow(key) && (old(Unshared()) ==> Unshared())
    {
      hide Injective, BitOf, WithBit;
      if offset < 0 {
        return 0;
      }
      var byteIndex, bitIndex := offset / 8, offset % 8;
      ghost var before := Bytes(key);
      ghost var was := slices;
      var data;
      if key in slices && byteIndex < slices[key].Length {
        data := slices[key];
      } else {
        data := Grow(if key in slices then slices[key] else null, byteIndex + 1);
      }
      assert data[..] == Grown(before, byteIndex + 1);
      GrownBit(before, byteIndex + 1, offset);
      prev := if BitOf(data[byteIndex], bitIndex) then 1 else 0;
      data[byteIndex] := WithBit(data[byteIndex], bitIndex, value == 1);
      if Unshared() { InjectiveUpdate(slices, key, data); }
      slices := slices[key := data];
      assert Bytes(key) == Put(Grown(before, byteIndex + 1), offset, value == 1);
    }

    /** A fresh slice of n bytes that starts with the old ones and ends in zeros. */
    method Grow(old_: array?<bv8>, n: nat) returns (data: array<bv8>)
      requires old_ != null ==> old_.Length <= n
      ensures fresh(data) && data[..] == Grown(if old_ == null then [] else old_[..], n)
      ensures data.Length == n
    {
      data := new bv8[n](_ => 0);
      if old_ != null {
        for i := 0 to old_.Length
          invariant data[..] == old_[..i] + seq(n - i, _ => 0)
        {
          data[i] := old_[i];
        }
        assert old_[..old_.Length] == old_[..];
      } else {
        assert data[..] == seq(n, _ => 0);
      }
    }

    method GETBIT(key: string, offset: int) returns (bit: int)
      ensures bit == if offset >= 0 && Bit(Bytes(key), offset) then 1 else 0
    {
      if offset < 0 || key !in slices || offset / 8 >= slices[key].Length {
        return 0;
      }
      return if BitOf(slices[key][offset / 8], offset % 8) then 1 else 0;
    }

    method BITCOUNT(key: string) returns (count: nat)
      ensures count == BitCount(Bytes(key))
      ensures count == |SetOffsets(Bytes(key), 8 * |Bytes(key)|)|
    {
      count := 0;
      if key in slices {
        var data := slices[key];
        for i := 0 to data.Length
          invariant count == BitCount(data[..i])
        {
          assert data[..i + 1][..i] == data[..i];
          count := count + OnesBelow(data[i], 8);
        }
        assert data[..data.Length] == data[..];
      }
      BitCountIsOffsets(Bytes(key));
    }

    // ---------- BITOP ----------

    ghost function Sources(keys: seq<string>): seq<seq<bv8>>
      reads this, slices.Values
    {
      seq(|keys|, k requires 0 <= k < |keys| reads this, slices.Values => Bytes(keys[k]))
    }

    ghost function Present(keys: seq<string>): seq<bool>
      reads this
    {
      seq(|keys|, k requires 0 <= k < |keys| reads this => keys[k] in slices)
    }

    /** Which of the keys hold the very slice that the first one holds. */
    ghost function Shares(keys: seq<string>): seq<bool>
      requires keys != [] && keys[0] in slices
      reads this
    {
      var first := slices[keys[0]];
      seq(|keys|, k requires 0 <= k < |keys| reads this => keys[k] in slices && slices[keys[k]] == first)
    }

    /** The inner loop: result[j] op= data[j]. It stops at the first byte for an operation it does
        not know, and for NOT past the first source. */
    method CombineInto(op: Operation, first: bool, result: array<bv8>, data: array<bv8>) returns (ok: bool)
      requires result.Length == data.Length
      modifies result
      ensures ok <==> result.Length == 0 || (op != Unknown && (op == Not ==> first))
      ensures result[..] == if ok then Zip(op, old(result[..]), old(data[..])) else old(result[..])
    {
      for j := 0 to result.Length
        invariant j > 0 ==> op != Unknown && (op == Not ==> first)
        invariant forall m | 0 <= m < j :: result[m] == Combine(op, old(result[m]), old(data[m]))
        invariant forall m | j <= m < result.Length :: result[m] == old(result[m]) && data[m] == old(data[m])
      {
        if op == Unknown || (op == Not && !first) {
          return false;
        }
        result[j] := Combine(op, result[j], data[j]);
      }
      return true;
    }

    /** One turn of the outer loop: align the lengths with fresh copies, then combine in place. */
    method Absorb(op: Operation, first: bool, accumulator: array<bv8>, source: array<bv8>)
      returns (ok: bool, result: array<bv8>)
      modifies accumulator
      ensures result == accumulator || (fresh(result) && accumulator[..] == old(accumulator[..]))
      ensures result == accumulator <==> accumulator.Length >= source.Length
      ensures result.Length == if accumulator.Length < source.Length then source.Length else accumulator.Length
      ensures ok <==> result.Length == 0 || (op != Unknown && (op == Not ==> first))
      ensures ok ==> result[..] == Zip(op, old(accumulator[..]), old(source[..]))
      ensures !ok ==> accumulator[..] == old(accumulator[..])
    {
      result := accumulator;
      var data := source;
      if result.Length < data.Length {
        result := Grow(result, data.Length);
      } else if result.Length > data.Length {
        data := Grow(data, result.Length);
      }
      ghost var x, y := result[..], data[..];
      ok := CombineInto(op, first, result, data);
      assert Zip(op, x, y) == Zip(op, old(accumulator[..]), old(source[..]));
    }

    method BITOP(op: Operation, destKey: string, keys: seq<string>) returns (ok: bool)
      modifies this, if keys != [] && keys[0] in slices then {slices[keys[0]]} else {}
      ensures !ok ==> slices == old(slices)
      ensures ok <==>
          && keys != [] && (forall k | 0 <= k < |keys| :: keys[k] in old(slices))
          && (op == Unknown || (op == Not && |keys| > 1) ==> Longest(old(Sources(keys))) == 0)
      ensures ok ==> destKey in slices && slices == old(slices)[destKey := slices[destKey]]
      // The destination takes over the first source's slice, unless a source is longer.
      ensures ok ==> if Longest(old(Sources(keys))) == |old(Bytes(keys[0]))|
                     then slices[destKey] == old(slices)[keys[0]] else fresh(slices[destKey])
      // What is left under the destination and in the first source's slice.
      ensures ok ==> var run := RunOp(op, old(Sources(keys)), old(Shares(keys)), |keys|);
                     Bytes(destKey) == run.acc && old(slices[keys[0]])[..] == run.first
      ensures ok ==> forall other | other in slices && other != destKey && slices[other] != old(slices)[keys[0]] ::
                       Bytes(other) == old(Bytes(other))
      ensures ok && old(Unshared()) ==>
          (Unshared() <==> destKey == keys[0] || Longest(old(Sources(keys))) != |old(Bytes(keys[0]))|)
      ensures !ok && keys != [] && keys[0] in old(slices) ==>
          exists n :: FailsFirst(op, old(Sources(keys)), old(Present(keys)), n)
            && old(slices[keys[0]])[..] == RunOp(op, old(Sources(keys)), old(Shares(keys)), n).first
      ensures ok && op != Unknown
          && (op == Xor ==> forall k | 1 <= k < |keys| :: old(slices[keys[k]]) != old(slices[keys[0]]))
          ==> Accumulates(op, old(Sources(keys)), Bytes(destKey))
    {
      hide Accumulates, Between, Longest, RunOp, Fails, Injective;
      if |keys| == 0 || keys[0] !in slices {
        return false;
      }
      ghost var cs, sh := Sources(keys), Shares(keys);
      var result;
      ok, result := CombineAll(op, keys);
      FailsIff(op, cs, Present(keys));
      if !ok {
        return;
      }
      assert cs[..|keys|] == cs;
      if op != Unknown && (op == Xor ==> forall k | 1 <= k < |keys| :: !sh[k]) {
        RunAccumulates(op, cs, sh, |keys|);
      }
      assert keys[0] in slices;
      if Unshared() { InjectiveUpdate(slices, destKey, result); }
      slices := slices[destKey := result];
    }

    /** The outer loop: all sources in turn, in the first one's slice until a longer one comes. */
    method CombineAll(op: Operation, keys: seq<string>) returns (ok: bool, result: array<bv8>)
      requires keys != [] && keys[0] in slices
      modifies slices[keys[0]]
      ensures ok <==> forall n | 0 <= n < |keys| :: !Fails(op, old(Sources(keys)), old(Present(keys)), n)
      ensures ok ==> forall k | 0 <= k < |keys| ::
                       keys[k] in slices && (old(Shares(keys))[k] <==> slices[keys[k]] == slices[keys[0]])
      ensures ok ==> if |old(Bytes(keys[0]))| == Longest(old(Sources(keys)))
                     then result == slices[keys[0]] else fresh(result)
      ensures ok ==>
          Run(result[..], slices[keys[0]][..]) == RunOp(op, old(Sources(keys)), old(Shares(keys)), |keys|)
      ensures !ok ==> exists n :: FailsFirst(op, old(Sources(keys)), old(Present(keys)), n)
                        && slices[keys[0]][..] == RunOp(op, old(Sources(keys)), old(Shares(keys)), n).first
      ensures Sharing(old(Sources(keys)), old(Shares(keys)))
    {
      hide Zip, Longest, RunOp, Fails;
      ghost var cs, sh, present := Sources(keys), Shares(keys), Present(keys);
      var first := slices[keys[0]];
      result := first;
      RunNone(op, cs, sh);
      for i := 0 to |keys|
        invariant forall m | 0 <= m < i :: !Fails(op, cs, present, m)
        invariant forall k | 0 <= k < i :: keys[k] in slices && (sh[k] <==> slices[keys[k]] == first)
        invariant forall key | key in slices && slices[key] != first :: slices[key][..] == old(slices[key][..])
        invariant result == first || fresh(result)
        invariant result == first <==> i == 0 || |cs[0]| == Longest(cs[..i])
        invariant Run(result[..], first[..]) == RunOp(op, cs, sh, i)
      {
        FailsAt(op, cs, present, i);
        if keys[i] !in slices {
          return false, result;
        }
        RunLengths(op, cs, sh, i);
        RunStep(op, cs, sh, i);
        LongestTurn(cs, i);
        ok, result := Absorb(op, i == 0, result, slices[keys[i]]);
        if !ok {
          return;
        }
      }
      assert cs[..|keys|] == cs;
      return true, result;
    }

    // ---------- BITFIELD ----------

    /** The loop that writes a field bit by bit, most significant bit first. */
    method WriteBits(data: array<bv8>, offset: nat, value: int, size: nat)
      requires (offset + size + 7) / 8 <= data.Length
      modifies data
      ensures data[..] == PutField(old(data[..]), offset, size, value, size)
    {
      hide WithBit, Shift;
      ghost var g := data[..];
      for i := 0 to size
        invariant data[..] == PutField(g, offset, size, value, i)
      {
        var byteIndex, bitIndex := (offset + i) / 8, (offset + i) % 8;
        ghost var before := data[..];
        data[byteIndex] := WithBit(data[byteIndex], 7 - bitIndex, Shift(value, size - 1 - i) % 2 == 1);
        assert data[..] == Put(before, Mirror(offset + i), ValueBit(value, size - 1 - i));
      }
    }

    /** Writes into the slice itself, or into a grown copy of it. */
    method SetBitfieldValue(bitfield: array<bv8>, offset: nat, value: int, size: nat, key: string)
      requires key in slices && slices[key] == bitfield
      modifies this, bitfield
      ensures key in slices && slices == old(slices)[key := slices[key]]
      ensures Bytes(key) == SetField(old(Bytes(key)), offset, size, value)
      ensures if (offset + size + 7) / 8 <= bitfield.Length then slices[key] == bitfield else fresh(slices[key])
      ensures OthersFollow(key) && (old(Unshared()) ==> Unshared())
    {
      hide Injective, PutField;
      var requiredBytes := (offset + size + 7) / 8;
      var data := bitfield;
      if data.Length < requiredBytes {
        data := Grow(data, requiredBytes);
      }
      assert data[..] == Grown(old(Bytes(key)), requiredBytes);
      WriteBits(data, offset, value, size);
      if Unshared() { InjectiveUpdate(slices, key, data); }
      slices := slices[key := data];
    }

    /** Reads the field bit by bit; the loop stops at the first bit past the end. */
    method GetBitfieldValue(bitfield: array<bv8>, offset: nat, size: nat) returns (r: Result<int>)
      ensures r.Ok? <==> size <= 64 && Holds(bitfield[..], offset, size)
      ensures r.Ok? ==> r.value == FieldValue(bitfield[..], offset, size)
    {
      if size <= 0 || size > 64 {
        return Err("invalid bitfield size");
      }
      hide Weighed, Pow2, BitOf, Signed, Prefix;
      var value := 0;
      PrefixEnds(bitfield[..], offset, size);
      for i := 0 to size
        invariant i > 0 ==> (offset + i - 1) / 8 < bitfield.Length
        invariant value == Weighed(bitfield[..], offset, size, i)
      {
        var byteIndex, bitIndex := (offset + i) / 8, (offset + i) % 8;
        if byteIndex >= bitfield.Length {
          return Err("offset out of range");
        }
        PrefixWeigh(bitfield[..], offset, size, i);
        assert Bit(bitfield[..], Mirror(offset + i)) == BitOf(bitfield[byteIndex], 7 - bitIndex);
        // The weights of the bits are distinct powers of two, so adding is the same as or-ing.
        if BitOf(bitfield[byteIndex], 7 - bitIndex) {
          value := value + Pow2(size - 1 - i);
        }
      }
      return Ok(Signed(value, size));
    }

    method SetBitfield(key: string, bitType: string, offset: nat, value: int) returns (r: Result<()>)
      modifies this, if key in slices then {slices[key]} else {}
      ensures r.Ok? <==> Fits(SizeOf(bitType), value)
      ensures key in slices && slices == old(slices)[key := slices[key]]
      ensures Bytes(key) ==
              if r.Ok? then SetField(old(Bytes(key)), offset, SizeOf(bitType), value) else old(Bytes(key))
      ensures if key in old(slices) && (r.Err? || Holds(old(Bytes(key)), offset, SizeOf(bitType)))
              then slices[key] == old(slices)[key] else fresh(slices[key])
      ensures OthersFollow(key) && (old(Unshared()) ==> Unshared())
    {
      hide Injective, SetField, Fits, SizeOf;
      if key !in slices {
        Create(key);
      }
      r := SetTyped(slices[key], key, bitType, offset, value);
    }

    method Create(key: string)
      requires key !in slices
      modifies this
      ensures key in slices && slices == old(slices)[key := slices[key]]
      ensures fresh(slices[key]) && Bytes(key) == []
      ensures old(Unshared()) ==> Unshared()
    {
      hide Injective;
      var empty := new bv8[0];
      if Unshared() { InjectiveUpdate(slices, key, empty); }
      slices := slices[key := empty];
    }

    /** The cases of the field type. */
    method SetTyped(bitfield: array<bv8>, key: string, bitType: string, offset: nat, value: int)
      returns (r: Result<()>)
      requires key in slices && slices[key] == bitfield
      modifies this, bitfield
      ensures r.Ok? <==> Fits(SizeOf(bitType), value)
      ensures key in slices && slices == old(slices)[key := slices[key]]
      ensures Bytes(key) ==
              if r.Ok? then SetField(old(Bytes(key)), offset, SizeOf(bitType), value) else old(Bytes(key))
      ensures if r.Err? || Holds(old(Bytes(key)), offset, SizeOf(bitType))
              then slices[key] == bitfield else fresh(slices[key])
      ensures OthersFollow(key) && (old(Unshared()) ==> Unshared())
    {
      hide Injective, SetField, Bit;
      if bitType == "i8" {
        if value < -128 || value > 127 {
          return Err("value out of range for i8");
        }
        SetBitfieldValue(bitfield, offset, value, 8, key);
        return Ok(());
      } else if bitType == "u16" {
        if value < 0 || value > 65535 {
          return Err("value out of range for u16");
        }
        SetBitfieldValue(bitfield, offset, value, 16, key);
        return Ok(());
      }
      return Err("unsupported bitfield type");
    }

    method GetBitfield(key: string, bitType: string, offset: nat) returns (r: Result<int>)
      ensures r.Ok? <==> key in slices && Holds(Bytes(key), offset, SizeOf(bitType))
      ensures r.Ok? ==> r.value == FieldValue(Bytes(key), offset, SizeOf(bitType))
    {
      if key !in slices {
        return Err("key not found");
      }
      if SizeOf(bitType) == 0 {
        return Err("unsupported bitfield type");
      }
      r := GetBitfieldValue(slices[key], offset, SizeOf(bitType));
    }

    method IncrByBitfield(key: string, bitType: string, offset: nat, increment: int) returns (r: Result<int>)
      modifies this, if key in slices then {slices[key]} else {}
      ensures r.Ok? <==>
          && key in old(slices) && Holds(old(Bytes(key)), offset, SizeOf(bitType))
          && Fits(SizeOf(bitType), FieldValue(old(Bytes(key)), offset, SizeOf(bitType)) + increment)
      ensures !r.Ok? ==> slices == old(slices) && Bytes(key) == old(Bytes(key))
      ensures r.Ok? ==>
          && r.value == FieldValue(old(Bytes(key)), offset, SizeOf(bitType)) + increment
          && slices == old(slices)
          && Bytes(key) == SetField(old(Bytes(key)), offset, SizeOf(bitType), r.value)
          && FieldValue(Bytes(key), offset, SizeOf(bitType)) == r.value
      ensures OthersFollow(key)
    {
      if key !in slices {
        return Err("key not found");
      }
      var current := GetBitfieldValue(slices[key], offset, SizeOf(bitType));
      if current.Err? {
        return current;
      }
      var newValue := current.value + increment;
      if newValue > MaxOf(bitType) || newValue < MinOf(bitType) {
        return Err("overflow");
      }
      SetThenGet(Bytes(key), offset, SizeOf(bitType), newValue);
      SetBitfieldValue(slices[key], offset, newValue, SizeOf(bitType), key);
      return Ok(newValue);
    }
  }

  // ---------- commands together ----------

  /** After a BITOP, a SETBIT under the destination shows under the first source if and only if no
      source was longer and the bit lies within the slice that the two then share. */
  method WriteAfterBitop(s: Store, op: Operation, dest: string, keys: seq<string>, offset: nat, value: int)
    returns (ok: bool)
    requires keys != [] && keys[0] in s.slices && dest != keys[0]
    modifies s, s.slices.Values
    ensures ok ==>
        var run := RunOp(op, old(s.Sources(keys)), old(s.Shares(keys)), |keys|);
        && s.Bytes(dest) == SetBit(run.acc, offset, value == 1)
        && s.Bytes(keys[0]) ==
           if Longest(old(s.Sources(keys))) == |run.first| && offset / 8 < |run.first| then s.Bytes(dest) else run.first
  {
    hide Longest, RunOp, SetBit, Fails, Injective;
    ghost var cs, sh := s.Sources(keys), s.Shares(keys);
    RunLengths(op, cs, sh, |keys|);
    ok := s.BITOP(op, dest, keys);
    if ok {
      var prev := s.SETBIT(dest, offset, value);
    }
  }

  /** BITOP XOR of two bitmaps of one bit each leaves the second one only. */
  method XorOfTwoBits(m: nat, n: nat) returns (s: Store)
    ensures fresh(s) && "d" in s.slices && forall o: nat :: Bit(s.Bytes("d"), o) <==> o == n
  {
    hide BitOf, Longest, RunOp, SetBit, Fails, Injective;
    s := new Store();
    var prev := s.SETBIT("a", m, 1);
    prev := s.SETBIT("b", n, 1);
    ghost var a, b := s.Bytes("a"), s.Bytes("b");
    assert b == SetBit([], n, true);
    ghost var cs := s.Sources(["a", "b"]);
    assert cs == [a, b];
    var ok := s.BITOP(Xor, "d", ["a", "b"]);
    assert Accumulates(Xor, cs, s.Bytes("d"));
    forall o: nat
      ensures Bit(s.Bytes("d"), o) <==> o == n
    {
      assert Bit(s.Bytes("d"), o) == Folded(Xor, cs, o);
      FoldedTwo(a, b, o);
      SetBitBit([], n, true, o);
    }
  }
}
