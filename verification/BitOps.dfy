/** What BITOP makes of byte sequences, and of the slice it works in. */
module BitOps {
  import opened Bits

  // ---------- the operations on bits ----------

  datatype Operation = And | Or | Xor | Not | Unknown

  function Combine(op: Operation, a: bv8, b: bv8): bv8 {
    match op
    case And => a & b
    case Or => a | b
    case Xor => a ^ b
    case Not => !b
    case Unknown => a
  }

  /** The operation on the bits at one offset of the sources' contents, absent bits being 0. XOR
      leaves out the first source: the accumulator starts as it and is XORed with it. */
  predicate Folded(op: Operation, cs: seq<seq<bv8>>, o: nat) {
    match op
    case And => forall k | 0 <= k < |cs| :: Bit(cs[k], o)
    case Or => exists k | 0 <= k < |cs| :: Bit(cs[k], o)
    case Xor => Parity(if cs == [] then [] else cs[1..], o)
    case Not => cs != [] && o < 8 * |cs[0]| && !Bit(cs[0], o)
    case Unknown => false
  }

  predicate Parity(cs: seq<seq<bv8>>, o: nat) {
    cs != [] && (Parity(cs[..|cs| - 1], o) != Bit(cs[|cs| - 1], o))
  }

  function Longest(cs: seq<seq<bv8>>): nat {
    if cs == [] then 0
    else
      var n := Longest(cs[..|cs| - 1]);
      if n < |cs[|cs| - 1]| then |cs[|cs| - 1]| else n
  }

  lemma CombineBit(op: Operation, a: bv8, b: bv8, k: nat)
    requires k < 8
    ensures BitOf(Combine(op, a, b), k) ==
            match op
            case And => BitOf(a, k) && BitOf(b, k)
            case Or => BitOf(a, k) || BitOf(b, k)
            case Xor => BitOf(a, k) != BitOf(b, k)
            case Not => !BitOf(b, k)
            case Unknown => BitOf(a, k)
  {
    AndBit(a, b, k);
    OrBit(a, b, k);
    XorBit(a, b, k);
    NotBit(b, k);
  }

  function BitOp(op: Operation, a: bool, b: bool): bool {
    match op
    case And => a && b
    case Or => a || b
    case Xor => a != b
    case Not => !b
    case Unknown => a
  }

  /** Byte-wise over the longer length, the shorter operand extended with zeros. */
  function Zip(op: Operation, a: seq<bv8>, b: seq<bv8>): seq<bv8> {
    var x, y := Grown(a, |b|), Grown(b, |a|);
    seq(|x|, j requires 0 <= j < |x| => Combine(op, x[j], y[j]))
  }

  lemma ZipBit(op: Operation, a: seq<bv8>, b: seq<bv8>, o: nat)
    ensures |Zip(op, a, b)| == if |a| < |b| then |b| else |a|
    ensures Bit(Zip(op, a, b), o) == (o / 8 < |Zip(op, a, b)| && BitOp(op, Bit(a, o), Bit(b, o)))
  {
    GrownBit(a, |b|, o);
    GrownBit(b, |a|, o);
    if o / 8 < |Zip(op, a, b)| {
      CombineBit(op, Grown(a, |b|)[o / 8], Grown(b, |a|)[o / 8], o % 8);
    }
  }

  /** r holds what the operation makes of the sources cs. */
  ghost predicate Accumulates(op: Operation, cs: seq<seq<bv8>>, r: seq<bv8>) {
    |r| == Longest(cs) && forall o: nat :: Bit(r, o) == Folded(op, cs, o)
  }

  /** What the first source's slice, written while it was the accumulator, may hold by now. */
  ghost predicate Between(op: Operation, cs: seq<seq<bv8>>, d: seq<bv8>) {
    match op
    case And => forall o: nat :: Folded(And, cs, o) ==> Bit(d, o)
    case Or => forall o: nat :: Bit(d, o) ==> Folded(Or, cs, o)
    case _ => true
  }

  lemma AccumulateFirst(op: Operation, c: seq<bv8>)
    requires op != Unknown
    ensures Accumulates(op, [c], Zip(op, c, c))
    ensures Between(op, [c], Zip(op, c, c))
  {
    assert [c][..0] == [] && [c][1..] == [];
    forall o: nat
      ensures Bit(Zip(op, c, c), o) == Folded(op, [c], o)
    {
      ZipBit(op, c, c, o);
      assert Bit([c][0], o) == Bit(c, o);
    }
  }

  lemma FoldedStep(op: Operation, cs: seq<seq<bv8>>, c: seq<bv8>, o: nat)
    requires cs != [] && (op.And? || op.Or? || op.Xor?)
    ensures Folded(op, cs + [c], o) == BitOp(op, Folded(op, cs, o), Bit(c, o))
  {
    var ds := cs + [c];
    match op
    case And =>
      assert ds[|cs|] == c && forall k | 0 <= k < |cs| :: ds[k] == cs[k];
    case Or =>
      assert ds[|cs|] == c && forall k | 0 <= k < |cs| :: ds[k] == cs[k];
    case Xor =>
      assert ds[1..] == cs[1..] + [c] && (cs[1..] + [c])[..|cs| - 1] == cs[1..];
  }

  lemma FoldedTwo(a: seq<bv8>, b: seq<bv8>, o: nat)
    ensures Folded(Xor, [a, b], o) == Bit(b, o)
  {
    assert [a, b][1..] == [b] && [b][..0] == [];
    assert Parity([b], o) == Bit(b, o);
  }

  lemma LongestStep(cs: seq<seq<bv8>>, c: seq<bv8>)
    ensures Longest(cs + [c]) == if Longest(cs) < |c| then |c| else Longest(cs)
  {
    assert (cs + [c])[..|cs|] == cs;
  }

  /** One more source, read through a slice d that agrees with its old contents c on the result. */
  lemma AccumulateNext(op: Operation, cs: seq<seq<bv8>>, c: seq<bv8>, r: seq<bv8>, d: seq<bv8>)
    requires cs != [] && (op.And? || op.Or? || op.Xor?) && Accumulates(op, cs, r) && |d| == |c|
    requires forall o: nat :: BitOp(op, Folded(op, cs, o), Bit(d, o)) == BitOp(op, Folded(op, cs, o), Bit(c, o))
    ensures Accumulates(op, cs + [c], Zip(op, r, d))
  {
    LongestStep(cs, c);
    forall o: nat
      ensures Bit(Zip(op, r, d), o) == Folded(op, cs + [c], o)
    {
      ZipBit(op, r, d, o);
      FoldedStep(op, cs, c, o);
      assert Bit(r, o) == Folded(op, cs, o);
    }
    ZipBit(op, r, d, 0);
  }

  lemma BetweenNext(op: Operation, cs: seq<seq<bv8>>, c: seq<bv8>, d: seq<bv8>)
    requires cs != [] && (op.And? || op.Or? || op.Xor?) && Between(op, cs, d)
    ensures Between(op, cs + [c], d)
  {
    forall o: nat
      ensures Folded(op, cs + [c], o) == BitOp(op, Folded(op, cs, o), Bit(c, o))
    {
      FoldedStep(op, cs, c, o);
    }
  }

  /** The accumulator read back as a source changes nothing, whether it is still the accumulator
      or was left behind when a longer source came. */
  lemma BetweenHarmless(op: Operation, cs: seq<seq<bv8>>, d: seq<bv8>, o: nat)
    requires cs != [] && (op.And? || op.Or?) && Between(op, cs, d)
    ensures BitOp(op, Folded(op, cs, o), Bit(d, o)) == BitOp(op, Folded(op, cs, o), Bit(cs[0], o))
  {
  }

  lemma BetweenSelf(op: Operation, cs: seq<seq<bv8>>, r: seq<bv8>)
    requires Accumulates(op, cs, r)
    ensures Between(op, cs, r)
  {
  }

  /** One turn of the BITOP loop after the first: the source is read as it was, or it is the first
      source's slice read through what the loop has made of it. */
  lemma Advance(op: Operation, cs: seq<seq<bv8>>, i: nat, r: seq<bv8>, d: seq<bv8>)
    requires 0 < i < |cs| && op != Unknown && Accumulates(op, cs[..i], r) && |d| == |cs[i]|
    requires d == cs[i] || (op != Xor && cs[i] == cs[0] && Between(op, cs[..i], d))
    requires op == Not ==> |r| == |d| == 0
    ensures Accumulates(op, cs[..i + 1], Zip(op, r, d))
  {
    assert cs[..i + 1] == cs[..i] + [cs[i]] && cs[..i][0] == cs[0];
    if op == Not {
      LongestStep(cs[..i], cs[i]);
      LongestFirst(cs[..i]);
    } else {
      if d != cs[i] {
        forall o: nat
          ensures BitOp(op, Folded(op, cs[..i], o), Bit(d, o)) == BitOp(op, Folded(op, cs[..i], o), Bit(cs[i], o))
        {
          BetweenHarmless(op, cs[..i], d, o);
        }
      }
      AccumulateNext(op, cs[..i], cs[i], r, d);
    }
  }

  lemma {:induction false} LongestFirst(cs: seq<seq<bv8>>)
    requires cs != []
    ensures |cs[0]| <= Longest(cs)
  {
    if |cs| > 1 { LongestFirst(cs[..|cs| - 1]); }
  }

  lemma {:induction false} LongestPrefix(cs: seq<seq<bv8>>, n: nat)
    requires n <= |cs|
    ensures Longest(cs[..n]) <= Longest(cs)
  {
    if n == |cs| {
      assert cs[..n] == cs;
    } else {
      LongestPrefix(cs[..|cs| - 1], n);
      assert cs[..|cs| - 1][..n] == cs[..n];
    }
  }

  lemma LongestTurn(cs: seq<seq<bv8>>, i: nat)
    requires i < |cs|
    ensures i == 0 ==> Longest(cs[..1]) == |cs[0]|
    ensures Longest(cs[..i + 1]) == if Longest(cs[..i]) < |cs[i]| then |cs[i]| else Longest(cs[..i])
    ensures Longest(cs[..i + 1]) <= Longest(cs)
    ensures i > 0 ==> |cs[0]| <= Longest(cs[..i])
  {
    if i > 0 { LongestFirst(cs[..i]); }
    assert cs[..i + 1] == cs[..i] + [cs[i]];
    LongestStep(cs[..i], cs[i]);
    LongestPrefix(cs, i + 1);
  }

  /** After a turn the first source's slice is the accumulator or stays as it was. */
  lemma StaysBetween(op: Operation, cs: seq<seq<bv8>>, i: nat, r: seq<bv8>, d: seq<bv8>)
    requires i < |cs| && op != Unknown && Accumulates(op, cs[..i + 1], r)
    requires d == r || (0 < i && Between(op, cs[..i], d))
    ensures Between(op, cs[..i + 1], d)
  {
    assert cs[..i + 1] == cs[..i] + [cs[i]];
    if d == r {
      BetweenSelf(op, cs[..i + 1], r);
    } else if op.And? || op.Or? {
      BetweenNext(op, cs[..i], cs[i], d);
    }
  }

  /** One turn of the loop: r and f are the accumulator and the first source's slice before it,
      d the slice read, r' and f' what the turn leaves. */
  lemma Turn(
      op: Operation, cs: seq<seq<bv8>>, i: nat,
      r: seq<bv8>, d: seq<bv8>, f: seq<bv8>, r': seq<bv8>, f': seq<bv8>)
    requires i < |cs| && op != Unknown && r' == Zip(op, r, d) && |d| == |cs[i]|
    requires i == 0 ==> r == d == cs[0] && f' == r'
    requires i > 0 ==> Accumulates(op, cs[..i], r) && Between(op, cs[..i], f) && (f' == r' || f' == f)
    requires i > 0 ==> d == cs[i] || (op != Xor && cs[i] == cs[0] && d == f)
    requires i > 0 && op == Not ==> |r| == |d| == 0
    ensures Accumulates(op, cs[..i + 1], r') && Between(op, cs[..i + 1], f')
  {
    hide Zip, Accumulates, Between, Folded;
    if i == 0 {
      assert cs[..1] == [cs[0]];
      AccumulateFirst(op, cs[0]);
    } else {
      Advance(op, cs, i, r, d);
    }
    StaysBetween(op, cs, i, r', f');
  }

  // ---------- the run of BITOP ----------

  /** The accumulator, and the bytes the first source's slice holds by now. */
  datatype Run = Run(acc: seq<bv8>, first: seq<bv8>)

  /** After n turns over sources with contents cs, sh telling which of them are in the first
      source's slice. As long as no source was longer the accumulator is that slice. */
  function RunOp(op: Operation, cs: seq<seq<bv8>>, sh: seq<bool>, n: nat): Run
    requires 0 < |cs| == |sh| && n <= |cs|
  {
    if n == 0 then Run(cs[0], cs[0])
    else
      var s := RunOp(op, cs, sh, n - 1);
      var acc := Zip(op, s.acc, if sh[n - 1] then s.first else cs[n - 1]);
      Run(acc, if Longest(cs[..n]) == |cs[0]| then acc else s.first)
  }

  lemma RunNone(op: Operation, cs: seq<seq<bv8>>, sh: seq<bool>)
    requires 0 < |cs| == |sh|
    ensures RunOp(op, cs, sh, 0) == Run(cs[0], cs[0])
  {
  }

  lemma RunStep(op: Operation, cs: seq<seq<bv8>>, sh: seq<bool>, n: nat)
    requires 0 < |cs| == |sh| && n < |cs|
    ensures var s := RunOp(op, cs, sh, n);
            var acc := Zip(op, s.acc, if sh[n] then s.first else cs[n]);
            RunOp(op, cs, sh, n + 1) == Run(acc, if Longest(cs[..n + 1]) == |cs[0]| then acc else s.first)
  {
  }

  /** The sources that share the first one's slice have its contents. */
  predicate Sharing(cs: seq<seq<bv8>>, sh: seq<bool>) {
    0 < |cs| == |sh| && sh[0] && forall k | 0 <= k < |cs| && sh[k] :: cs[k] == cs[0]
  }

  lemma {:induction false} RunLengths(op: Operation, cs: seq<seq<bv8>>, sh: seq<bool>, n: nat)
    requires Sharing(cs, sh) && n <= |cs|
    ensures |RunOp(op, cs, sh, n).first| == |cs[0]|
    ensures |RunOp(op, cs, sh, n).acc| == if n == 0 then |cs[0]| else Longest(cs[..n])
  {
    hide Zip, Longest;
    if n > 0 {
      RunLengths(op, cs, sh, n - 1);
      LongestTurn(cs, n - 1);
      var s := RunOp(op, cs, sh, n - 1);
      ZipBit(op, s.acc, if sh[n - 1] then s.first else cs[n - 1], 0);
    }
  }

  /** The accumulator is the fold of the sources so far, although it may be the first source's
      slice and be read again as another source. */
  lemma {:induction false} RunAccumulates(op: Operation, cs: seq<seq<bv8>>, sh: seq<bool>, n: nat)
    requires Sharing(cs, sh) && 0 < n <= |cs| && op != Unknown
    requires op == Xor ==> forall k | 1 <= k < n :: !sh[k]
    requires op == Not && n > 1 ==> Longest(cs[..n]) == 0
    ensures Accumulates(op, cs[..n], RunOp(op, cs, sh, n).acc)
    ensures Between(op, cs[..n], RunOp(op, cs, sh, n).first)
  {
    hide Zip, Accumulates, Between, Longest;
    var s, s' := RunOp(op, cs, sh, n - 1), RunOp(op, cs, sh, n);
    LongestTurn(cs, n - 1);
    RunLengths(op, cs, sh, n - 1);
    if n > 1 { RunAccumulates(op, cs, sh, n - 1); }
    Turn(op, cs, n - 1, s.acc, if sh[n - 1] then s.first else cs[n - 1], s.first, s'.acc, s'.first);
  }

  /** How many of the first n sources come before the first that is longer than the first. */
  function Lead(cs: seq<seq<bv8>>, n: nat): (s: nat)
    requires 0 < |cs| && n <= |cs|
    ensures s <= n && (n > 0 ==> s > 0)
  {
    if Longest(cs[..n]) <= |cs[0]| then n else assert cs[..1] == [cs[0]]; Lead(cs, n - 1)
  }

  lemma LeadStep(cs: seq<seq<bv8>>, n: nat)
    requires 0 < n <= |cs|
    ensures if Longest(cs[..n]) == |cs[0]| then Lead(cs, n) == n && Lead(cs, n - 1) == n - 1
            else Lead(cs, n) == Lead(cs, n - 1)
  {
    LongestTurn(cs, n - 1);
    if n > 1 { LongestPrefix(cs[..n], n - 1); assert cs[..n][..n - 1] == cs[..n - 1]; }
  }

  /** The first source's slice is left as the accumulator was when the first longer source came. */
  lemma {:induction false} FirstIsLead(op: Operation, cs: seq<seq<bv8>>, sh: seq<bool>, n: nat)
    requires Sharing(cs, sh) && n <= |cs|
    ensures RunOp(op, cs, sh, n).first == RunOp(op, cs, sh, Lead(cs, n)).acc
  {
    hide Longest, Zip;
    if n > 0 {
      LeadStep(cs, n);
      FirstIsLead(op, cs, sh, n - 1);
    }
  }

  /** The last of the first s sources that is in the first source's slice. */
  function LastShared(sh: seq<bool>, s: nat): (l: nat)
    requires 0 < |sh| && sh[0] && 0 < s <= |sh|
    ensures l < s && sh[l] && forall k | l < k < s :: !sh[k]
  {
    if sh[s - 1] then s - 1 else LastShared(sh, s - 1)
  }

  /** The sources up to the last one, before any longer one, that shares the first one's slice. */
  function Cleared(cs: seq<seq<bv8>>, sh: seq<bool>, n: nat): seq<seq<bv8>>
    requires Sharing(cs, sh) && 0 < n <= |cs|
  {
    cs[..LastShared(sh, Lead(cs, n)) + 1]
  }

  /** The sources after those, still before any longer one. */
  function Uncleared(cs: seq<seq<bv8>>, sh: seq<bool>, n: nat): seq<seq<bv8>>
    requires Sharing(cs, sh) && 0 < n <= |cs|
  {
    cs[LastShared(sh, Lead(cs, n)) + 1..Lead(cs, n)]
  }

  // ---------- when BITOP leaves the first source as it was ----------

  lemma ByteBits(a: bv8, b: bv8)
    requires forall k | 0 <= k < 8 :: BitOf(a, k) == BitOf(b, k)
    ensures a == b
  {
    assert BitOf(a, 0) == BitOf(b, 0) && BitOf(a, 1) == BitOf(b, 1);
    assert BitOf(a, 2) == BitOf(b, 2) && BitOf(a, 3) == BitOf(b, 3);
    assert BitOf(a, 4) == BitOf(b, 4) && BitOf(a, 5) == BitOf(b, 5);
    assert BitOf(a, 6) == BitOf(b, 6) && BitOf(a, 7) == BitOf(b, 7);
  }

  /** Equally long byte sequences with the same bits are the same. */
  lemma SameBits(a: seq<bv8>, b: seq<bv8>)
    requires |a| == |b| && forall o: nat :: Bit(a, o) == Bit(b, o)
    ensures a == b
  {
    hide BitOf;
    forall j | 0 <= j < |a|
      ensures a[j] == b[j]
    {
      forall k | 0 <= k < 8
        ensures BitOf(a[j], k) == BitOf(b[j], k)
      {
        assert Bit(a, 8 * j + k) == Bit(b, 8 * j + k);
      }
      ByteBits(a[j], b[j]);
    }
  }

  /** What the sources must hold for the first one's bytes to be left as they were. */
  ghost predicate Keeps(op: Operation, cs: seq<seq<bv8>>, sh: seq<bool>)
    requires Sharing(cs, sh)
  {
    var s := Lead(cs, |cs|);
    match op
    case And => forall k, o: nat | 0 <= k < s && Bit(cs[0], o) :: Bit(cs[k], o)
    case Or => forall k, o: nat | 0 <= k < s && Bit(cs[k], o) :: Bit(cs[0], o)
    case Xor => forall o: nat :: Bit(cs[0], o) == Parity(Uncleared(cs, sh, |cs|), o)
    case Not => cs[0] == []
    case Unknown => true
  }

  /** BITOP leaves the bytes of its first source as they were if and only if, among the sources
      before the first longer one, AND finds all its bits, OR no other bits, XOR exactly its bits
      in those read after it was last cleared, and NOT no bytes at all. */
  lemma FirstKeptIff(op: Operation, cs: seq<seq<bv8>>, sh: seq<bool>)
    requires Sharing(cs, sh)
    requires (op == Not && |cs| > 1) || op == Unknown ==> Longest(cs) == 0
    ensures RunOp(op, cs, sh, |cs|).first == cs[0] <==> Keeps(op, cs, sh)
  {
    var first := RunOp(op, cs, sh, |cs|).first;
    hide RunOp, Keeps, Bit, Longest, Lead;
    RunLengths(op, cs, sh, |cs|);
    if forall o: nat :: Bit(first, o) == Bit(cs[0], o) { SameBits(first, cs[0]); }
    match op {
      case And => FirstKeptBits(op, cs, sh);
      case Or => FirstKeptBits(op, cs, sh);
      case Xor => FirstKeptXor(cs, sh);
      case Not => FirstKeptNot(cs, sh);
      case Unknown => FirstKeptEmpty(cs, sh);
    }
  }

  lemma FirstKeptXor(cs: seq<seq<bv8>>, sh: seq<bool>)
    requires Sharing(cs, sh)
    ensures (forall o: nat :: Bit(RunOp(Xor, cs, sh, |cs|).first, o) == Bit(cs[0], o)) <==> Keeps(Xor, cs, sh)
  {
    hide RunOp, Lead, Bit, Parity, Reread, Uncleared;
    forall o: nat
      ensures Bit(RunOp(Xor, cs, sh, |cs|).first, o) == Parity(Uncleared(cs, sh, |cs|), o)
    {
      XorBits(cs, sh, |cs|, o);
    }
  }

  lemma FirstKeptNot(cs: seq<seq<bv8>>, sh: seq<bool>)
    requires Sharing(cs, sh) && (|cs| > 1 ==> Longest(cs) == 0)
    ensures RunOp(Not, cs, sh, |cs|).first == cs[0] <==> Keeps(Not, cs, sh)
  {
    RunLengths(Not, cs, sh, |cs|);
    if cs[0] != [] {
      LongestFirst(cs);
      LongestTurn(cs, 0);
      var c := cs[0];
      assert RunOp(Not, cs, sh, 1).first == Zip(Not, c, c);
      ZipBit(Not, c, c, 0);
    }
  }

  lemma FirstKeptEmpty(cs: seq<seq<bv8>>, sh: seq<bool>)
    requires Sharing(cs, sh) && Longest(cs) == 0
    ensures RunOp(Unknown, cs, sh, |cs|).first == cs[0]
    ensures Keeps(Unknown, cs, sh)
  {
    LongestFirst(cs);
    RunLengths(Unknown, cs, sh, |cs|);
  }

  lemma FirstKeptBits(op: Operation, cs: seq<seq<bv8>>, sh: seq<bool>)
    requires Sharing(cs, sh) && (op == And || op == Or)
    ensures (forall o: nat :: Bit(RunOp(op, cs, sh, |cs|).first, o) == Bit(cs[0], o)) <==> Keeps(op, cs, sh)
  {
    var s := Lead(cs, |cs|);
    FirstIsLead(op, cs, sh, |cs|);
    RunAccumulates(op, cs, sh, s);
    hide RunOp, Lead, Bit, Longest;
    forall o: nat
      ensures Folded(op, cs[..s], o) == if op == And then forall k | 0 <= k < s :: Bit(cs[k], o)
                                        else exists k | 0 <= k < s :: Bit(cs[k], o)
    {
      FoldedPrefix(op, cs, s, o);
    }
  }

  lemma FoldedPrefix(op: Operation, cs: seq<seq<bv8>>, s: nat, o: nat)
    requires s <= |cs| && (op == And || op == Or)
    ensures Folded(op, cs[..s], o) == if op == And then forall k | 0 <= k < s :: Bit(cs[k], o)
                                      else exists k | 0 <= k < s :: Bit(cs[k], o)
  {
    assert forall k | 0 <= k < s :: cs[..s][k] == cs[k];
    hide Bit;
  }

  // ---------- XOR with repeated sources ----------

  /** Whether an odd number of the sources from s to n are in the first source's slice. */
  predicate OddShared(sh: seq<bool>, s: nat, n: nat)
    requires s <= n <= |sh|
    decreases n
  {
    s < n && OddShared(sh, s, n - 1) != sh[n - 1]
  }

  /** What reading the written slice instead of the old bytes adds at an offset. */
  predicate Reread(cs: seq<seq<bv8>>, sh: seq<bool>, n: nat, o: nat)
    requires Sharing(cs, sh) && 0 < n <= |cs|
  {
    OddShared(sh, Lead(cs, n), n) && Bit(cs[0], o) != Parity(Uncleared(cs, sh, n), o)
  }

  lemma ParityStep(cs: seq<seq<bv8>>, lo: nat, hi: nat, o: nat)
    requires lo <= hi < |cs|
    ensures Parity(cs[lo..hi + 1], o) == (Parity(cs[lo..hi], o) != Bit(cs[hi], o))
  {
    assert cs[lo..hi + 1][..hi - lo] == cs[lo..hi];
  }

  /** What BITOP XOR leaves, bit by bit. Reading the slice it works in clears that slice, so only
      the sources after the last such turn remain; once a longer source came, every further turn
      on the first source's slice reads what was left in it. */
  lemma {:induction false} XorBits(cs: seq<seq<bv8>>, sh: seq<bool>, n: nat, o: nat)
    requires Sharing(cs, sh) && 0 < n <= |cs|
    ensures Bit(RunOp(Xor, cs, sh, n).first, o) == Parity(Uncleared(cs, sh, n), o)
    ensures Bit(RunOp(Xor, cs, sh, n).acc, o) ==
            (Parity(cs[|Cleared(cs, sh, n)|..n], o) != Reread(cs, sh, n, o))
  {
    hide Longest, Bit, Parity, Zip, Lead;
    LeadStep(cs, n);
    XorTurn(cs, sh, n, o);
    if n == 1 {
      LongestTurn(cs, 0);
      NoParity(cs, 1, o);
    } else {
      XorBits(cs, sh, n - 1, o);
      var s := Lead(cs, n - 1);
      ParityStep(cs, LastShared(sh, s) + 1, n - 1, o);
      if Longest(cs[..n]) == |cs[0]| && sh[n - 1] { NoParity(cs, n, o); }
    }
  }

  lemma NoParity(cs: seq<seq<bv8>>, n: nat, o: nat)
    requires n <= |cs|
    ensures !Parity(cs[n..n], o)
  {
  }

  lemma XorTurn(cs: seq<seq<bv8>>, sh: seq<bool>, n: nat, o: nat)
    requires Sharing(cs, sh) && 0 < n <= |cs|
    ensures var s, s' := RunOp(Xor, cs, sh, n - 1), RunOp(Xor, cs, sh, n);
            && Bit(s'.acc, o) == (Bit(s.acc, o) != if sh[n - 1] then Bit(s.first, o) else Bit(cs[n - 1], o))
            && Bit(s'.first, o) == if Longest(cs[..n]) == |cs[0]| then Bit(s'.acc, o) else Bit(s.first, o)
  {
    hide Zip, Longest;
    var s := RunOp(Xor, cs, sh, n - 1);
    ZipBit(Xor, s.acc, if sh[n - 1] then s.first else cs[n - 1], o);
  }

  lemma ParitySplits(cs: seq<seq<bv8>>, lo: nat, o: nat)
    requires lo <= |cs|
    ensures Parity(cs, o) == (Parity(cs[..lo], o) != Parity(cs[lo..], o))
    decreases |cs| - lo
  {
    if lo == |cs| {
      assert cs[..lo] == cs;
    } else {
      ParitySplits(cs, lo + 1, o);
      ParityFirst(cs[lo..], o);
      assert cs[lo..][1..] == cs[lo + 1..];
      ParityStep(cs, 0, lo, o);
      assert cs[0..lo] == cs[..lo] && cs[0..lo + 1] == cs[..lo + 1];
    }
  }

  lemma {:induction false} ParityFirst(cs: seq<seq<bv8>>, o: nat)
    requires cs != []
    ensures Parity(cs, o) == (Bit(cs[0], o) != Parity(cs[1..], o))
  {
    if |cs| > 1 {
      ParityFirst(cs[..|cs| - 1], o);
      assert cs[1..][..|cs| - 2] == cs[..|cs| - 1][1..];
    }
  }

  /** BITOP XOR leaves the XOR of all its sources if and only if the sources up to the last one
      that cleared the first source's slice cancel out with what is reread from it later. */
  lemma XorIff(cs: seq<seq<bv8>>, sh: seq<bool>)
    requires Sharing(cs, sh)
    ensures (forall o: nat :: Bit(RunOp(Xor, cs, sh, |cs|).acc, o) == Parity(cs, o))
            <==> forall o: nat :: Parity(Cleared(cs, sh, |cs|), o) == Reread(cs, sh, |cs|, o)
  {
    hide RunOp, Parity, Reread, Bit, Cleared;
    if forall o: nat :: Parity(Cleared(cs, sh, |cs|), o) == Reread(cs, sh, |cs|, o) {
      forall o: nat
        ensures Bit(RunOp(Xor, cs, sh, |cs|).acc, o) == Parity(cs, o)
      {
        XorAt(cs, sh, o);
      }
    } else {
      var o: nat :| Parity(Cleared(cs, sh, |cs|), o) != Reread(cs, sh, |cs|, o);
      XorAt(cs, sh, o);
    }
  }

  lemma XorAt(cs: seq<seq<bv8>>, sh: seq<bool>, o: nat)
    requires Sharing(cs, sh)
    ensures Bit(RunOp(Xor, cs, sh, |cs|).acc, o) == Parity(cs, o)
            <==> Parity(Cleared(cs, sh, |cs|), o) == Reread(cs, sh, |cs|, o)
  {
    var l := |Cleared(cs, sh, |cs|)|;
    assert cs[l..|cs|] == cs[l..] && cs[..l] == Cleared(cs, sh, |cs|);
    hide RunOp, Parity, Reread, Bit, Cleared;
    XorBits(cs, sh, |cs|, o);
    ParitySplits(cs, l, o);
  }

  /** When no later source shares the first one's slice, that is so if and only if the first has
      no bit set. */
  lemma XorIffUnshared(cs: seq<seq<bv8>>, sh: seq<bool>)
    requires Sharing(cs, sh) && forall k | 1 <= k < |cs| :: !sh[k]
    ensures (forall o: nat :: Bit(RunOp(Xor, cs, sh, |cs|).acc, o) == Parity(cs, o))
            <==> forall o: nat :: !Bit(cs[0], o)
  {
    XorIff(cs, sh);
    NoneShared(sh, Lead(cs, |cs|), |cs|);
    hide RunOp, Lead, Bit, OddShared, LastShared;
    assert Cleared(cs, sh, |cs|) == cs[..1];
    hide Cleared, Uncleared;
    forall o: nat
      ensures Parity(Cleared(cs, sh, |cs|), o) == Bit(cs[0], o) && !Reread(cs, sh, |cs|, o)
    {
      assert cs[..1][..0] == [];
    }
  }

  lemma {:induction false} NoneShared(sh: seq<bool>, s: nat, n: nat)
    requires 0 < s <= n <= |sh| && forall k | 1 <= k < |sh| :: !sh[k]
    ensures !OddShared(sh, s, n)
    decreases n
  {
    if s < n { NoneShared(sh, s, n - 1); }
  }

  /** With a repeated first key the first source does not decide. Over a, b, a with a empty at an
      offset and b not, the bit of b is lost. */
  lemma XorRepeats(a: seq<bv8>, b: seq<bv8>, o: nat)
    requires |b| <= |a| && !Bit(a, o) && Bit(b, o)
    ensures !Bit(RunOp(Xor, [a, b, a], [true, false, true], 3).acc, o) && Parity([a, b, a], o)
  {
    var cs := [a, b, a];
    LongestOfTwo(a, b);
    LongestStep([a, b], a);
    assert [a, b] + [a] == cs && cs[..3] == cs;
    assert Lead(cs, 3) == 3 && LastShared([true, false, true], 3) == 2;
    hide RunOp, Lead, LastShared, Longest, Bit;
    XorBits(cs, [true, false, true], 3, o);
    assert cs[..2] == [a, b] && [a, b][..1] == [a] && [a][..0] == [];
    assert Parity([a], o) == Bit(a, o) && Parity([a, b], o) == (Bit(a, o) != Bit(b, o));
  }

  /** Over a, a nothing is lost, whatever a holds. */
  lemma XorTwice(a: seq<bv8>)
    ensures forall o: nat :: Bit(RunOp(Xor, [a, a], [true, true], 2).acc, o) == Parity([a, a], o)
  {
    var cs := [a, a];
    LongestOfTwo(a, a);
    assert cs[..2] == cs && Lead(cs, 2) == 2 && LastShared([true, true], 2) == 1;
    hide RunOp, Lead, LastShared, Longest, Bit;
    forall o: nat
      ensures Bit(RunOp(Xor, cs, [true, true], 2).acc, o) == Parity(cs, o)
    {
      XorBits(cs, [true, true], 2, o);
      assert cs[..1] == [a] && [a][..0] == [];
    }
  }

  lemma LongestOfTwo(a: seq<bv8>, b: seq<bv8>)
    requires |b| <= |a|
    ensures Longest([a, b]) == |a|
  {
    LongestStep([], a);
    LongestStep([a], b);
    assert [] + [a] == [a] && [a] + [b] == [a, b];
  }

  // ---------- where BITOP panics ----------

  /** Turn n panics: no such source, or an operation that it refuses with a byte to work on. */
  predicate Fails(op: Operation, cs: seq<seq<bv8>>, present: seq<bool>, n: nat)
    requires n < |cs| == |present|
  {
    !present[n] || (Longest(cs[..n + 1]) > 0 && (op == Unknown || (op == Not && n > 0)))
  }

  predicate FailsFirst(op: Operation, cs: seq<seq<bv8>>, present: seq<bool>, n: nat)
    requires |cs| == |present|
  {
    n < |cs| && Fails(op, cs, present, n) && forall m | 0 <= m < n :: !Fails(op, cs, present, m)
  }

  lemma FailsAt(op: Operation, cs: seq<seq<bv8>>, present: seq<bool>, n: nat)
    requires n < |cs| == |present|
    ensures Fails(op, cs, present, n) <==>
            !present[n] || (Longest(cs[..n + 1]) > 0 && (op == Unknown || (op == Not && n > 0)))
  {
  }

  /** No turn fails if and only if all sources are there and the operation suits them. */
  lemma FailsIff(op: Operation, cs: seq<seq<bv8>>, present: seq<bool>)
    requires 0 < |cs| == |present|
    ensures (forall n | 0 <= n < |cs| :: !Fails(op, cs, present, n)) <==>
            && (forall n | 0 <= n < |cs| :: present[n])
            && (op == Unknown || (op == Not && |cs| > 1) ==> Longest(cs) == 0)
  {
    hide Longest, Fails;
    var last := |cs| - 1;
    assert cs[..last + 1] == cs;
    forall n | 0 <= n < |cs|
      ensures Fails(op, cs, present, n) ==> !present[n] || Fails(op, cs, present, last)
      ensures !present[n] ==> Fails(op, cs, present, n)
    {
      FailsAt(op, cs, present, n);
      FailsAt(op, cs, present, last);
      LongestPrefix(cs, n + 1);
    }
    FailsAt(op, cs, present, last);
  }

  // ---------- NOT ----------

  lemma {:induction false} OffsetsComplement(c: seq<bv8>, r: seq<bv8>, n: nat)
    requires n <= 8 * |c| && forall o: nat | o < n :: Bit(r, o) == !Bit(c, o)
    ensures |SetOffsets(r, n)| + |SetOffsets(c, n)| == n
  {
    hide Bit;
    if n > 0 {
      hide SetOffsets;
      OffsetsComplement(c, r, n - 1);
      OffsetsStep(r, n - 1);
      OffsetsStep(c, n - 1);
    } else {
      assert SetOffsets(r, 0) == {} && SetOffsets(c, 0) == {};
    }
  }

  /** NOT turns every counted bit off and every other on. */
  lemma NotCount(c: seq<bv8>, r: seq<bv8>)
    requires Accumulates(Not, [c], r)
    ensures BitCount(r) == 8 * |c| - BitCount(c)
  {
    hide Bit, BitCount, SetOffsets;
    assert [] + [c] == [c];
    LongestStep([], c);
    forall o: nat | o < 8 * |c|
      ensures Bit(r, o) == !Bit(c, o)
    {
      assert Bit(r, o) == Folded(Not, [c], o);
    }
    OffsetsComplement(c, r, 8 * |c|);
    BitCountIsOffsets(c);
    BitCountIsOffsets(r);
    assert |r| == |c|;
  }
}
