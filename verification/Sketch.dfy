/** HyperLogLog registers as values: a join-semilattice over the set of inserted members. The hash
    is any function to 64-bit numbers. */
module Sketch {
  import opened Powers

  type Hash = string -> nat

  const WORD: nat := 0x1_0000_0000_0000_0000

  function BitLength(w: nat): nat {
    if w == 0 then 0 else 1 + BitLength(w / 2)
  }

  /** Logical shift right. */
  function ShiftRight(x: nat, n: nat): nat {
    if n == 0 then x else ShiftRight(x / 2, n - 1)
  }

  function Word(h: Hash, v: string): (x: nat)
    ensures x < 0x1_0000_0000_0000_0000
    ensures h(v) < 0x1_0000_0000_0000_0000 ==> x == h(v)
  {
    h(v) % WORD
  }

  /** The register: the low bits of the hash, masked with m - 1 for a power of two m. */
  function Index(h: Hash, p: nat, v: string): (i: nat)
    ensures i < Pow2(p)
  {
    Word(h, v) % Pow2(p)
  }

  /** One more than the leading zeros, counted over 64 bits, of the hash shifted right by
      64 - Len32(m) = 63 - p. */
  function Rank(h: Hash, p: nat, v: string): int
    requires p <= 18
  {
    64 - BitLength(ShiftRight(Word(h, v), 63 - p)) + 1
  }

  lemma {:induction false} BitLengthBound(w: nat, n: nat)
    requires w < Pow2(n)
    ensures BitLength(w) <= n
  {
    if w > 0 { BitLengthBound(w / 2, n - 1); }
  }

  lemma {:induction false} ShiftBound(x: nat, n: nat, b: nat)
    requires x < Pow2(n + b)
    ensures ShiftRight(x, n) < Pow2(b)
  {
    if n > 0 { ShiftBound(x / 2, n - 1, b); }
  }

  lemma Doubled(q: nat, y: nat, p: nat, x: nat)
    requires q * p <= y < (q + 1) * p && 2 * y <= x <= 2 * y + 1
    ensures q * (2 * p) <= x < (q + 1) * (2 * p)
  {
    assert q * (2 * p) == 2 * (q * p) && (q + 1) * (2 * p) == 2 * ((q + 1) * p);
  }

  lemma {:induction false} ShiftBetween(x: nat, n: nat)
    ensures ShiftRight(x, n) * Pow2(n) <= x < (ShiftRight(x, n) + 1) * Pow2(n)
  {
    if n > 0 {
      ShiftBetween(x / 2, n - 1);
      Doubled(ShiftRight(x, n), x / 2, Pow2(n - 1), x);
    }
  }

  lemma QuotientIs(x: nat, d: nat, q: nat)
    requires q * d <= x < (q + 1) * d
    ensures d > 0 && x / d == q
  {
    assert d > 0;
    DivMod(x, d);
    var r := x / d;
    if r < q { TimesMonotone(r + 1, q, d); }
    if q < r { TimesMonotone(q + 1, r, d); }
  }

  lemma TimesMonotone(a: nat, b: nat, d: nat)
    requires a <= b
    ensures a * d <= b * d
  {
    assert (b - a) * d >= 0;
  }

  lemma DivMod(x: nat, d: nat)
    requires d > 0
    ensures x == x / d * d + x % d
  {
  }

  /** Shifting right divides by a power of two. */
  lemma ShiftDivides(x: nat, n: nat)
    ensures ShiftRight(x, n) == x / Pow2(n)
  {
    ShiftBetween(x, n);
    QuotientIs(x, Pow2(n), ShiftRight(x, n));
  }

  lemma {:induction false} BitLengthBetween(w: nat)
    requires w > 0
    ensures BitLength(w) > 0 && Pow2(BitLength(w) - 1) <= w < Pow2(BitLength(w))
  {
    if w > 1 { BitLengthBetween(w / 2); }
  }

  /** The rank is 65 for a hash with none of its upper p + 1 bits set, and otherwise one more than
      the number of zeros above the highest of them in a word of 64. */
  lemma RankLaw(h: Hash, p: nat, v: string)
    requires p <= 18
    ensures var w, r := Word(h, v) / Pow2(63 - p), Rank(h, p, v);
            if w == 0 then r == 65
            else 1 <= r <= 64 && Pow2(64 - r) <= w < Pow2(65 - r)
  {
    RankRange(h, p, v);
    ShiftDivides(Word(h, v), 63 - p);
    var w := Word(h, v) / Pow2(63 - p);
    hide Pow2, ShiftRight;
    if w > 0 { BitLengthBetween(w); }
  }

  /** The register is the low p bits. */
  lemma IndexLaw(h: Hash, p: nat, v: string)
    ensures Index(h, p, v) < Pow2(p) && Word(h, v) == Word(h, v) / Pow2(p) * Pow2(p) + Index(h, p, v)
  {
    DivMod(Word(h, v), Pow2(p));
    assert Index(h, p, v) == Word(h, v) % Pow2(p);
    hide Pow2, Word, Index;
  }

  /** The shift keeps p + 1 bits, so a rank lies between 64 - p and 65. */
  lemma RankRange(h: Hash, p: nat, v: string)
    requires p <= 18
    ensures 64 - p <= Rank(h, p, v) <= 65
  {
    hide Pow2, ShiftRight, BitLength;
    Pow2OfWords();
    var n := 63 - p;
    assert n + (p + 1) == 64;
    ShiftBound(Word(h, v), n, p + 1);
    BitLengthBound(ShiftRight(Word(h, v), n), p + 1);
  }

  function Zeros(p: nat): (r: seq<nat>)
    ensures |r| == Pow2(p)
  {
    seq(Pow2(p), _ => 0)
  }

  function Max(a: nat, b: nat): nat {
    if a < b then b else a
  }

  function Added(r: seq<nat>, h: Hash, p: nat, v: string): (s: seq<nat>)
    requires p <= 18 && |r| == Pow2(p)
    ensures |s| == |r|
  {
    RankRange(h, p, v);
    r[Index(h, p, v) := Max(r[Index(h, p, v)], Rank(h, p, v))]
  }

  function Merged(r: seq<nat>, s: seq<nat>): (t: seq<nat>)
    requires |r| == |s|
    ensures |t| == |r|
  {
    seq(|r|, i requires 0 <= i < |r| => Max(r[i], s[i]))
  }

  // ---------- what a register holds ----------

  /** Register i is the greatest rank among the members that hash to it, 0 if none does. */
  ghost predicate IsRegister(h: Hash, p: nat, vs: set<string>, i: nat, x: nat)
    requires p <= 18
  {
    && (forall v | v in vs && Index(h, p, v) == i :: Rank(h, p, v) <= x)
    && (x == 0 || exists v | v in vs :: Index(h, p, v) == i && Rank(h, p, v) == x)
  }

  ghost predicate IsSketch(h: Hash, p: nat, vs: set<string>, r: seq<nat>)
    requires p <= 18
  {
    |r| == Pow2(p) && forall i | 0 <= i < |r| :: IsRegister(h, p, vs, i, r[i])
  }

  lemma SketchUnique(h: Hash, p: nat, vs: set<string>, r: seq<nat>, s: seq<nat>)
    requires p <= 18 && IsSketch(h, p, vs, r) && IsSketch(h, p, vs, s)
    ensures r == s
  {
    forall i | 0 <= i < |r|
      ensures r[i] == s[i]
    {
      assert IsRegister(h, p, vs, i, r[i]) && IsRegister(h, p, vs, i, s[i]);
      hide Rank, Index;
    }
  }

  lemma AddedIsSketch(h: Hash, p: nat, vs: set<string>, r: seq<nat>, v: string)
    requires p <= 18 && IsSketch(h, p, vs, r)
    ensures IsSketch(h, p, vs + {v}, Added(r, h, p, v))
  {
    RankRange(h, p, v);
    var s := Added(r, h, p, v);
    forall i | 0 <= i < |s|
      ensures IsRegister(h, p, vs + {v}, i, s[i])
    {
      hide Rank, Index;
      assert IsRegister(h, p, vs, i, r[i]);
      assert v in vs + {v};
      if s[i] != 0 && !(Index(h, p, v) == i && Rank(h, p, v) == s[i]) {
        var u :| u in vs && Index(h, p, u) == i && Rank(h, p, u) == r[i];
        assert u in vs + {v};
      }
    }
  }

  lemma MergedIsSketch(h: Hash, p: nat, us: set<string>, r: seq<nat>, vs: set<string>, s: seq<nat>)
    requires p <= 18 && IsSketch(h, p, us, r) && IsSketch(h, p, vs, s)
    ensures IsSketch(h, p, us + vs, Merged(r, s))
  {
    var t := Merged(r, s);
    forall i | 0 <= i < |t|
      ensures IsRegister(h, p, us + vs, i, t[i])
    {
      hide Rank, Index;
      assert IsRegister(h, p, us, i, r[i]) && IsRegister(h, p, vs, i, s[i]);
      if t[i] != 0 {
        if t[i] == r[i] {
          var u :| u in us && Index(h, p, u) == i && Rank(h, p, u) == r[i];
          assert u in us + vs;
        } else {
          var u :| u in vs && Index(h, p, u) == i && Rank(h, p, u) == s[i];
          assert u in us + vs;
        }
      }
    }
  }

  lemma ZerosIsSketch(h: Hash, p: nat)
    requires p <= 18
    ensures IsSketch(h, p, {}, Zeros(p))
  {
  }

  // ---------- any history of additions and merges ----------

  datatype History = New | Add(base: History, member: string) | Merge(left: History, right: History)

  function Registers(t: History, h: Hash, p: nat): (r: seq<nat>)
    requires p <= 18
    ensures |r| == Pow2(p)
  {
    match t
    case New => Zeros(p)
    case Add(base, member) => Added(Registers(base, h, p), h, p, member)
    case Merge(left, right) => Merged(Registers(left, h, p), Registers(right, h, p))
  }

  function Members(t: History): set<string> {
    match t
    case New => {}
    case Add(base, member) => Members(base) + {member}
    case Merge(left, right) => Members(left) + Members(right)
  }

  /** Whatever was added and merged, in whatever order and however often, the registers are those
      of the set of all members. */
  lemma {:induction false} HistoryIsSketch(t: History, h: Hash, p: nat)
    requires p <= 18
    ensures IsSketch(h, p, Members(t), Registers(t, h, p))
  {
    match t
    case New => ZerosIsSketch(h, p);
    case Add(base, member) =>
      HistoryIsSketch(base, h, p);
      AddedIsSketch(h, p, Members(base), Registers(base, h, p), member);
    case Merge(left, right) =>
      HistoryIsSketch(left, h, p);
      HistoryIsSketch(right, h, p);
      MergedIsSketch(h, p, Members(left), Registers(left, h, p), Members(right), Registers(right, h, p));
  }

  lemma SameMembersSameRegisters(t: History, u: History, h: Hash, p: nat)
    requires p <= 18 && Members(t) == Members(u)
    ensures Registers(t, h, p) == Registers(u, h, p)
  {
    HistoryIsSketch(t, h, p);
    HistoryIsSketch(u, h, p);
    SketchUnique(h, p, Members(t), Registers(t, h, p), Registers(u, h, p));
  }

  /** A register that is not 0 lies between 64 - p and 65, whatever the history. */
  lemma RegisterRange(t: History, h: Hash, p: nat, i: nat)
    requires p <= 18 && i < Pow2(p)
    ensures var x := Registers(t, h, p)[i]; x == 0 || 64 - p <= x <= 65
  {
    HistoryIsSketch(t, h, p);
    var x := Registers(t, h, p)[i];
    assert IsRegister(h, p, Members(t), i, x);
    if x != 0 {
      var v :| v in Members(t) && Index(h, p, v) == i && Rank(h, p, v) == x;
      RankRange(h, p, v);
    }
  }

  // ---------- merging several ----------

  function MergedAll(rs: seq<seq<nat>>, p: nat): (r: seq<nat>)
    requires forall k | 0 <= k < |rs| :: |rs[k]| == Pow2(p)
    ensures |r| == Pow2(p)
  {
    if rs == [] then Zeros(p) else Merged(MergedAll(rs[..|rs| - 1], p), rs[|rs| - 1])
  }

  lemma MergedAllStep(rs: seq<seq<nat>>, next: seq<nat>, p: nat)
    requires |next| == Pow2(p) && forall k | 0 <= k < |rs| :: |rs[k]| == Pow2(p)
    ensures MergedAll([], p) == Zeros(p)
    ensures forall k | 0 <= k < |rs + [next]| :: |(rs + [next])[k]| == Pow2(p)
    ensures MergedAll(rs + [next], p) == Merged(MergedAll(rs, p), next)
  {
    assert (rs + [next])[..|rs|] == rs;
  }

  function Union(vss: seq<set<string>>): set<string> {
    if vss == [] then {} else Union(vss[..|vss| - 1]) + vss[|vss| - 1]
  }

  /** PFMERGE of sketches is the sketch of the union of their members. */
  lemma {:induction false} MergedAllIsSketch(h: Hash, p: nat, vss: seq<set<string>>, rs: seq<seq<nat>>)
    requires p <= 18 && |vss| == |rs| && forall k | 0 <= k < |rs| :: IsSketch(h, p, vss[k], rs[k]) && |rs[k]| == Pow2(p)
    ensures IsSketch(h, p, Union(vss), MergedAll(rs, p))
  {
    if rs == [] {
      ZerosIsSketch(h, p);
    } else {
      var n := |rs| - 1;
      MergedAllIsSketch(h, p, vss[..n], rs[..n]);
      MergedIsSketch(h, p, Union(vss[..n]), MergedAll(rs[..n], p), vss[n], rs[n]);
    }
  }
}
