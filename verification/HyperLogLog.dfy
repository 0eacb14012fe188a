/** The HyperLogLog object, its registers overwritten in place, and PFADD and PFMERGE on the store. */
module HyperLogLogs {
  import opened Powers
  import opened Sketch

  const DEFAULT_PRECISION: nat := 14

  class HyperLogLog {
    const precision: nat
    const registers: array<nat>

    predicate Valid() {
      4 <= precision <= 18 && registers.Length == Pow2(precision)
    }

    constructor (precision: nat)
      requires 4 <= precision <= 18
      ensures Valid() && this.precision == precision && fresh(registers)
      ensures registers[..] == Zeros(precision)
    {
      this.precision := precision;
      registers := new nat[Pow2(precision)](_ => 0);
      new;
      assert registers[..] == Zeros(precision);
    }

    method Add(h: Hash, value: string)
      requires Valid()
      modifies registers
      ensures registers[..] == Added(old(registers[..]), h, precision, value)
    {
      hide Pow2;
      RankRange(h, precision, value);
      var registerIndex, leadingZeros := Index(h, precision, value), Rank(h, precision, value);
      if registers[registerIndex] < leadingZeros {
        registers[registerIndex] := leadingZeros;
      }
      assert registers[..] == Added(old(registers[..]), h, precision, value);
    }

    /** The size check is the caller's to meet: unequal sizes panic. */
    method Merge(other: HyperLogLog)
      requires Valid() && other.Valid() && precision == other.precision
      modifies registers
      ensures registers[..] == Merged(old(registers[..]), old(other.registers[..]))
    {
      hide Pow2;
      for i := 0 to registers.Length
        invariant forall k | 0 <= k < i :: registers[k] == Max(old(registers[k]), old(other.registers[k]))
        invariant forall k | i <= k < registers.Length ::
            registers[k] == old(registers[k]) && other.registers[k] == old(other.registers[k])
      {
        if other.registers[i] > registers[i] {
          registers[i] := other.registers[i];
        }
      }
    }
  }

  /** What a key can hold here: a sketch, the nil sketch PFMERGE without sources leaves, or a value
      of another type. */
  datatype Value = Held(sketch: HyperLogLog) | Nil | Other

  datatype Reply = Fine | Error(message: string) | Panic

  class Store {
    const hash: Hash
    var values: map<string, Value>

    ghost predicate Valid()
      reads this
    {
      && (forall k | k in values && values[k].Held? ::
            values[k].sketch.Valid() && values[k].sketch.precision == DEFAULT_PRECISION)
      && (forall k, l | k in values && l in values && k != l && values[k].Held? && values[l].Held? ::
            values[k].sketch.registers != values[l].sketch.registers)
    }

    /** The registers under a key that holds a sketch. */
    ghost function RegistersAt(key: string): seq<nat>
      requires key in values && values[key].Held?
      reads this, values[key].sketch.registers
    {
      values[key].sketch.registers[..]
    }

    /** The reply to a source that is no sketch. */
    ghost function Refused(key: string): Reply
      reads this
    {
      if key !in values then Error("source key does not exist")
      else match values[key]
        case Held(_) => Fine
        case Nil => Panic
        case Other => Error("WRONGTYPE Operation against a key holding the wrong kind of value")
    }

    constructor (hash: Hash)
      ensures Valid() && values == map[] && this.hash == hash
    {
      this.hash := hash;
      values := map[];
    }

    method PFAdd(key: string, value: string) returns (r: Reply)
      requires Valid()
      modifies this, if key in values && values[key].Held? then {values[key].sketch.registers} else {}
      ensures Valid()
      ensures r.Fine? <==> key !in old(values) || old(values)[key].Held?
      ensures !r.Fine? ==>
          && values == old(values)
          && r == if values[key].Nil? then Panic
                  else Error("WRONGTYPE Operation against a key holding the wrong kind of value")
      ensures r.Fine? ==>
          && key in values && values[key].Held? && values == old(values)[key := values[key]]
          && values[key].sketch.precision == 14 && |RegistersAt(key)| == Pow2(14)
          && RegistersAt(key) == Added(if key in old(values) then old(RegistersAt(key)) else Zeros(DEFAULT_PRECISION),
                                       hash, DEFAULT_PRECISION, value)
    {
      hide Pow2, Added;
      if key in values {
        match values[key]
        case Held(sketch) =>
          sketch.Add(hash, value);
          return Fine;
        case Nil => return Panic;
        case Other => return Error("WRONGTYPE Operation against a key holding the wrong kind of value");
      }
      var sketch := new HyperLogLog(DEFAULT_PRECISION);
      sketch.Add(hash, value);
      values := values[key := Held(sketch)];
      return Fine;
    }

    /** rs lists the registers of the sources, which the merge leaves as they were. */
    method PFMerge(dest: string, sources: seq<string>) returns (r: Reply, ghost rs: seq<seq<nat>>)
      requires Valid()
      modifies this
      ensures Valid()
      ensures r.Fine? <==> forall k | 0 <= k < |sources| :: sources[k] in old(values) && old(values)[sources[k]].Held?
      ensures !r.Fine? ==> values == old(values) && exists k | 0 <= k < |sources| ::
                && (forall m | 0 <= m < k :: sources[m] in values && values[sources[m]].Held?)
                && r == Refused(sources[k])
      ensures r.Fine? ==>
          && dest in values && values == old(values)[dest := values[dest]]
          && (sources == [] ==> values[dest] == Nil)
          && (sources != [] ==> values[dest].Held? && fresh(values[dest].sketch.registers))
      ensures r.Fine? && sources != [] ==>
          && |rs| == |sources|
          && (forall k | 0 <= k < |rs| :: rs[k] == old(RegistersAt(sources[k])) && |rs[k]| == Pow2(DEFAULT_PRECISION))
          && values[dest].sketch.precision == 14 && RegistersAt(dest) == MergedAll(rs, 14)
    {
      hide Pow2, Merged, MergedAll, Zeros;
      var merged: HyperLogLog? := null;
      rs := [];
      for i := 0 to |sources|
        invariant values == old(values) && |rs| == i
        invariant forall k | 0 <= k < i :: sources[k] in values && values[sources[k]].Held?
        invariant forall k | 0 <= k < i :: rs[k] == old(RegistersAt(sources[k])) && |rs[k]| == Pow2(DEFAULT_PRECISION)
        invariant i == 0 ==> merged == null
        invariant i > 0 ==> merged != null && fresh(merged.registers) && merged.Valid()
        invariant i > 0 ==> merged.precision == DEFAULT_PRECISION
        invariant i > 0 ==> merged.registers[..] == MergedAll(rs, DEFAULT_PRECISION)
      {
        if sources[i] !in values {
          return Error("source key does not exist"), rs;
        }
        match values[sources[i]]
        case Held(sketch) =>
          if merged == null {
            merged := new HyperLogLog(DEFAULT_PRECISION);
          }
          ghost var next := sketch.registers[..];
          MergedAllStep(rs, next, DEFAULT_PRECISION);
          merged.Merge(sketch);
          rs := rs + [next];
        case Nil => return Panic, rs;
        case Other => return Error("WRONGTYPE Operation against a key holding the wrong kind of value"), rs;
      }
      values := values[dest := if merged == null then Nil else Held(merged)];
      return Fine, rs;
    }
  }
}
