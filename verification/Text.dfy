/** The string helpers the server leans on: white-space fields, joining, upper case, decimals.
    A string is a sequence of bytes; its length is what Go's len reports. */
module Text {
  import opened Results

  // ---------- fields and joining ----------

  /** The ASCII part of unicode.IsSpace, which strings.Fields splits at. */
  predicate IsSpace(c: char) {
    c == ' ' || '\t' <= c <= '\r'
  }

  predicate IsWord(s: string) {
    |s| > 0 && forall k | 0 <= k < |s| :: !IsSpace(s[k])
  }

  predicate Tidy(parts: seq<string>) {
    forall k | 0 <= k < |parts| :: IsWord(parts[k])
  }

  function WordLength(s: string): (n: nat)
    ensures n <= |s|
    ensures forall k | 0 <= k < n :: !IsSpace(s[k])
    ensures n < |s| ==> IsSpace(s[n])
  {
    if s == "" || IsSpace(s[0]) then 0 else 1 + WordLength(s[1..])
  }

  function Fields(s: string): (parts: seq<string>)
    ensures Tidy(parts)
    decreases |s|
  {
    if s == "" then []
    else if IsSpace(s[0]) then Fields(s[1..])
    else [s[..WordLength(s)]] + Fields(s[WordLength(s)..])
  }

  function Join(parts: seq<string>, sep: string): string {
    if |parts| == 0 then "" else if |parts| == 1 then parts[0] else parts[0] + sep + Join(parts[1..], sep)
  }

  lemma {:induction false} WordLengthPrefix(w: string, s: string)
    requires IsWord(w) && (s == "" || IsSpace(s[0]))
    ensures WordLength(w + s) == |w|
  {
    assert (w + s)[1..] == w[1..] + s;
    if |w| == 1 {
      assert w[1..] + s == s;
    } else {
      WordLengthPrefix(w[1..], s);
    }
  }

  lemma {:induction false} FieldsOfJoin(parts: seq<string>)
    requires Tidy(parts)
    ensures Fields(Join(parts, " ")) == parts
  {
    if |parts| > 0 {
      var tail := if |parts| == 1 then "" else " " + Join(parts[1..], " ");
      assert Join(parts, " ") == parts[0] + tail;
      WordLengthPrefix(parts[0], tail);
      assert (parts[0] + tail)[|parts[0]|..] == tail && (parts[0] + tail)[..|parts[0]|] == parts[0];
      if |parts| > 1 {
        assert tail[1..] == Join(parts[1..], " ");
        FieldsOfJoin(parts[1..]);
      }
    }
  }

  /** Joining with blanks and splitting again gives the parts back exactly when every part is a
      non-empty word without white space. */
  lemma FieldsOfJoinIff(parts: seq<string>)
    ensures Fields(Join(parts, " ")) == parts <==> Tidy(parts)
  {
    if Tidy(parts) { FieldsOfJoin(parts); }
  }

  /** Splitting is at every space and nowhere else: two texts with one between them split on their
      own, and a word is one field. */
  lemma {:induction false} FieldsSplit(a: string, c: char, b: string)
    requires c in {' ', '\t', '\n', '\r', 11 as char, 12 as char}
    ensures Fields(a + [c] + b) == Fields(a) + Fields(b)
    decreases |a|
  {
    var s := a + [c] + b;
    if a == "" {
      assert s[1..] == b;
    } else if IsSpace(a[0]) {
      assert s[1..] == a[1..] + [c] + b;
      FieldsSplit(a[1..], c, b);
    } else {
      var n := WordLength(a);
      var rest := a[n..];
      WordLengthPrefix(a[..n], rest + [c] + b);
      assert a[..n] + (rest + [c] + b) == s;
      assert s[..n] == a[..n] && s[n..] == rest + [c] + b;
      FieldsSplit(rest, c, b);
    }
  }

  lemma FieldsOfWord(w: string)
    requires w != "" && forall k | 0 <= k < |w| :: w[k] !in {' ', '\t', '\n', '\r', 11 as char, 12 as char}
    ensures Fields(w) == [w] && Fields("") == []
  {
    forall k | 0 <= k < |w|
      ensures !IsSpace(w[k])
    {
      SpaceIs(w[k]);
    }
    WordLengthPrefix(w, "");
    assert w + "" == w && w[..|w|] == w && w[|w|..] == "";
    hide WordLength;
  }

  lemma SpaceIs(c: char)
    ensures IsSpace(c) <==> c in {' ', '\t', '\n', '\r', 11 as char, 12 as char}
  {
  }

  /** Any separator stands between the parts, once between neighbours. */
  lemma {:induction false} JoinLast(parts: seq<string>, x: string, sep: string)
    ensures Join([], sep) == ""
    ensures Join(parts + [x], sep) == if parts == [] then x else Join(parts, sep) + sep + x
  {
    if |parts| == 1 {
      assert (parts + [x])[1..] == [x];
    } else if |parts| > 1 {
      assert (parts + [x])[1..] == parts[1..] + [x];
      JoinLast(parts[1..], x, sep);
    }
  }

  // ---------- case ----------

  function Upper(s: string): (u: string)
    ensures |u| == |s|
  {
    seq(|s|, k requires 0 <= k < |s| => if 'a' <= s[k] <= 'z' then 'A' + (s[k] - 'a') else s[k])
  }

  /** Small letters become the capital 32 below, and nothing else changes. */
  lemma UpperAt(s: string, k: nat)
    requires k < |s|
    ensures Upper(s)[k] as int == s[k] as int - if 97 <= s[k] as int <= 122 then 32 else 0
  {
  }

  // ---------- decimal numbers ----------

  const MAX_INT: int := 0x7FFF_FFFF_FFFF_FFFF
  const MIN_INT: int := -0x8000_0000_0000_0000

  /** The value an int64 computation leaves: the remainder modulo 2^64 in the signed range. */
  function Wrap(x: int): (r: int)
    ensures MIN_INT <= r <= MAX_INT
    ensures MIN_INT <= x <= MAX_INT ==> r == x
  {
    (x - MIN_INT) % 0x1_0000_0000_0000_0000 + MIN_INT
  }

  /** The one number of the int64 range that is as much off as a multiple of 2^64. */
  lemma WrapIs(x: int)
    ensures -0x8000_0000_0000_0000 <= Wrap(x) <= 0x7FFF_FFFF_FFFF_FFFF
    ensures (x - Wrap(x)) % 0x1_0000_0000_0000_0000 == 0
  {
  }

  predicate IsDigit(c: char) {
    '0' <= c <= '9'
  }

  function Digit(d: nat): (c: char)
    requires d < 10
    ensures IsDigit(c)
  {
    '0' + (d as char)
  }

  function DigitsOf(n: nat): (s: string)
    ensures |s| > 0 && forall k | 0 <= k < |s| :: IsDigit(s[k])
  {
    if n < 10 then [Digit(n)] else DigitsOf(n / 10) + [Digit(n % 10)]
  }

  function Itoa(n: int): string {
    if n < 0 then "-" + DigitsOf(-n) else DigitsOf(n)
  }

  function ValueOf(s: string): nat
    requires forall k | 0 <= k < |s| :: IsDigit(s[k])
  {
    if s == "" then 0
    else assert IsDigit(s[|s| - 1]); 10 * ValueOf(s[..|s| - 1]) + (s[|s| - 1] - '0') as nat
  }

  predicate AllDigits(s: string) {
    |s| > 0 && forall k | 0 <= k < |s| :: IsDigit(s[k])
  }

  /** strconv.Atoi: an optional sign, then digits, within the range of an int64. */
  function Atoi(s: string): (r: Option<int>)
    ensures r.Some? ==> MIN_INT <= r.value <= MAX_INT
  {
    var signed := s != "" && (s[0] == '-' || s[0] == '+');
    var body := if signed then s[1..] else s;
    if !AllDigits(body) then None
    else
      var v: int := if signed && s[0] == '-' then 0 - ValueOf(body) else ValueOf(body);
      if MIN_INT <= v <= MAX_INT then Some(v) else None
  }

  /** Base ten, most significant digit first. */
  lemma ValueOfLast(s: string, c: char)
    requires (forall k | 0 <= k < |s| :: '0' <= s[k] <= '9') && '0' <= c <= '9'
    ensures ValueOf("") == 0
    ensures ValueOf(s + [c]) == 10 * ValueOf(s) + (c as int - 48)
  {
    assert (s + [c])[..|s|] == s;
  }

  /** Nothing else reads as a number. */
  lemma AtoiRefuses(s: string)
    requires Atoi(s).Some?
    ensures s != "" && forall k | 1 <= k < |s| :: '0' <= s[k] <= '9'
    ensures '0' <= s[0] <= '9' || (|s| > 1 && (s[0] == '-' || s[0] == '+'))
  {
    var body := if s[0] == '-' || s[0] == '+' then s[1..] else s;
    assert AllDigits(body);
    hide ValueOf;
    forall k | 1 <= k < |s|
      ensures '0' <= s[k] <= '9'
    {
      if body != s { assert body[k - 1] == s[k]; }
    }
  }

  /** Digits after an optional sign read as a number, if an int64 holds it. */
  lemma AtoiForms(d: string)
    requires d != "" && forall k | 0 <= k < |d| :: '0' <= d[k] <= '9'
    ensures Atoi(d) == if ValueOf(d) <= 0x7FFF_FFFF_FFFF_FFFF then Some(ValueOf(d)) else None
    ensures Atoi("+" + d) == Atoi(d)
    ensures Atoi("-" + d) == if ValueOf(d) <= 0x8000_0000_0000_0000 then Some(0 - ValueOf(d)) else None
  {
    AtoiPlain(d);
    AtoiMinus(d);
    hide ValueOf;
    assert ("+" + d)[1..] == d;
  }

  lemma {:induction false} ValueOfDigits(n: nat)
    ensures ValueOf(DigitsOf(n)) == n
  {
    var s := DigitsOf(n);
    if n < 10 {
      assert s[..0] == "";
    } else {
      ValueOfDigits(n / 10);
      assert s[..|s| - 1] == DigitsOf(n / 10);
    }
  }

  lemma AtoiPlain(d: string)
    requires AllDigits(d)
    ensures Atoi(d) == if ValueOf(d) <= MAX_INT then Some(ValueOf(d)) else None
  {
    assert IsDigit(d[0]);
    hide ValueOf;
  }

  lemma AtoiMinus(d: string)
    requires AllDigits(d)
    ensures Atoi("-" + d) == if 0 - ValueOf(d) >= MIN_INT then Some(0 - ValueOf(d)) else None
  {
    hide ValueOf;
    assert ("-" + d)[1..] == d;
  }

  /** Reading back what was written, for every number an int64 holds. */
  lemma AtoiOfItoa(n: int)
    ensures Atoi(Itoa(n)) == if MIN_INT <= n <= MAX_INT then Some(n) else None
  {
    hide DigitsOf, ValueOf, Atoi;
    if n < 0 {
      ValueOfDigits(-n);
      AtoiMinus(DigitsOf(-n));
    } else {
      ValueOfDigits(n);
      AtoiPlain(DigitsOf(n));
    }
  }
}
