/** The request tokeniser and the array reply encoder, each with its inverse. */
module Protocol {
  import opened Results
  import opened Text

  // ---------- the tokeniser ----------

  /** The white space of the regular expression: blank, tab, newline, form feed, return. */
  predicate IsBlank(c: char) {
    c == ' ' || c == '\t' || c == '\n' || c == '\r' || c as int == 12
  }

  predicate IsQuote(c: char) {
    c == '"' || c == '\''
  }

  /** The first position of c from k on; |s| when there is none. */
  function Find(s: string, c: char, k: nat): (n: nat)
    requires k <= |s|
    ensures k <= n <= |s|
    ensures forall j | k <= j < n :: s[j] != c
    ensures n < |s| ==> s[n] == c
    decreases |s| - k
  {
    if k == |s| || s[k] == c then k else Find(s, c, k + 1)
  }

  function RunLength(s: string): (n: nat)
    ensures n <= |s|
    ensures forall j | 0 <= j < n :: !IsBlank(s[j])
    ensures n < |s| ==> IsBlank(s[n])
  {
    if s == "" || IsBlank(s[0]) then 0 else 1 + RunLength(s[1..])
  }

  /** The length of the match at the start: a double-quoted string, else a single-quoted one, else
      a run of non-blanks. */
  function MatchLength(s: string): (n: nat)
    requires s != "" && !IsBlank(s[0])
    ensures 0 < n <= |s|
  {
    if IsQuote(s[0]) && Find(s, s[0], 1) < |s| then Find(s, s[0], 1) + 1 else RunLength(s)
  }

  function TrimLeft(s: string): (t: string)
    ensures |t| <= |s|
    ensures |t| == |s| ==> t == s && (s != "" ==> !IsQuote(s[0]))
  {
    if s != "" && IsQuote(s[0]) then TrimLeft(s[1..]) else s
  }

  function TrimRight(s: string): (t: string)
    ensures |t| <= |s|
    ensures |t| == |s| ==> t == s && (s != "" ==> !IsQuote(s[|s| - 1]))
  {
    if s != "" && IsQuote(s[|s| - 1]) then TrimRight(s[..|s| - 1]) else s
  }

  function Trim(s: string): (t: string)
    ensures |t| <= |s|
  {
    TrimRight(TrimLeft(s))
  }

  function Parts(s: string): seq<string>
    decreases |s|
  {
    if s == "" then []
    else if IsBlank(s[0]) then Parts(s[1..])
    else [Trim(s[..MatchLength(s)])] + Parts(s[MatchLength(s)..])
  }

  lemma PartsStep(before: seq<string>, s: string)
    requires s != ""
    ensures before + Parts(s) ==
            if IsBlank(s[0]) then before + Parts(s[1..])
            else (before + [Trim(s[..MatchLength(s)])]) + Parts(s[MatchLength(s)..])
  {
    hide Trim, MatchLength, IsBlank;
  }

  /** FindAllString from left to right, each match trimmed of quotes. */
  method ParseCommand(input: string) returns (parts: seq<string>)
    ensures parts == Parts(input)
  {
    parts := [];
    var rest := input;
    assert Parts("") == [];
    hide Trim, Find, RunLength, IsBlank, Parts;
    while rest != ""
      invariant Parts(input) == parts + Parts(rest)
      decreases |rest|
    {
      PartsStep(parts, rest);
      if IsBlank(rest[0]) {
        rest := rest[1..];
      } else {
        var end;
        if rest[0] == '"' && Find(rest, '"', 1) < |rest| {
          end := Find(rest, '"', 1) + 1;
        } else if rest[0] == '\'' && Find(rest, '\'', 1) < |rest| {
          end := Find(rest, '\'', 1) + 1;
        } else {
          end := RunLength(rest);
        }
        assert end == MatchLength(rest);
        parts := parts + [Trim(rest[..end])];
        rest := rest[end..];
      }
    }
  }

  // ---------- what is one match, and what trimming leaves ----------

  /** The first n characters are a text between two quotes q, with none inside. */
  predicate IsQuotation(s: string, q: char, n: nat) {
    2 <= n <= |s| && s[0] == q == s[n - 1] && forall j | 1 <= j < n - 1 :: s[j] != q
  }

  /** The first n characters are all up to the first white space or the end. */
  predicate IsRun(s: string, n: nat) {
    && n <= |s|
    && (forall j | 0 <= j < n :: s[j] !in {' ', '\t', '\n', '\r', 12 as char})
    && (n < |s| ==> s[n] in {' ', '\t', '\n', '\r', 12 as char})
  }

  /** The alternation, leftmost first: a double quotation, else a single one, else a run. */
  lemma MatchIs(s: string)
    requires s != "" && s[0] !in {' ', '\t', '\n', '\r', 12 as char}
    ensures var n := MatchLength(s);
            || IsQuotation(s, '"', n)
            || (IsQuotation(s, '\'', n) && forall m :: !IsQuotation(s, '"', m))
            || (IsRun(s, n) && forall m :: !IsQuotation(s, '"', m) && !IsQuotation(s, '\'', m))
  {
    var n := MatchLength(s);
    if s[0] == '"' || s[0] == '\'' {
      var k := Find(s, s[0], 1);
      if k < |s| {
        assert IsQuotation(s, s[0], k + 1);
      } else {
        assert forall j | 1 <= j < |s| :: s[j] != s[0];
      }
    }
  }

  /** Trimming takes quotes of both kinds off both ends, and nothing else. */
  lemma {:induction false} TrimIs(s: string) returns (a: string, b: string)
    ensures s == a + Trim(s) + b
    ensures (forall k | 0 <= k < |a| :: a[k] == '"' || a[k] == '\'')
    ensures (forall k | 0 <= k < |b| :: b[k] == '"' || b[k] == '\'')
    ensures Trim(s) != "" ==>
              var t := Trim(s); t[0] != '"' && t[0] != '\'' && t[|t| - 1] != '"' && t[|t| - 1] != '\''
  {
    a := TrimLeftIs(s);
    b := TrimRightIs(TrimLeft(s));
    assert Trim(s) != "" ==> Trim(s)[0] == TrimLeft(s)[0];
    hide TrimLeft, TrimRight;
    assert a + (Trim(s) + b) == a + Trim(s) + b;
  }

  lemma {:induction false} TrimLeftIs(s: string) returns (a: string)
    ensures s == a + TrimLeft(s) && forall k | 0 <= k < |a| :: a[k] == '"' || a[k] == '\''
    ensures TrimLeft(s) != "" ==> TrimLeft(s)[0] != '"' && TrimLeft(s)[0] != '\''
  {
    a := "";
    if s != "" && IsQuote(s[0]) {
      a := TrimLeftIs(s[1..]);
      a := [s[0]] + a;
    }
  }

  lemma {:induction false} TrimRightIs(s: string) returns (b: string)
    ensures s == TrimRight(s) + b && forall k | 0 <= k < |b| :: b[k] == '"' || b[k] == '\''
    ensures var t := TrimRight(s); t != "" ==> t[|t| - 1] != '"' && t[|t| - 1] != '\''
  {
    b := "";
    if s != "" && IsQuote(s[|s| - 1]) {
      b := TrimRightIs(s[..|s| - 1]);
      b := b + [s[|s| - 1]];
    }
  }

  // ---------- printing parts ----------

  datatype Part = Bare(text: string) | Quoted(text: string) | SingleQuoted(text: string)

  predicate QuoteFreeEnds(t: string) {
    t != "" ==> t[0] != '"' && t[0] != '\'' && t[|t| - 1] != '"' && t[|t| - 1] != '\''
  }

  /** Bare: non-empty, no white space. In quotes: none of these inside. And no quote of either kind
      at either end. */
  predicate Printable(p: Part) {
    && QuoteFreeEnds(p.text)
    && match p
       case Bare(t) => t != "" && forall j | 0 <= j < |t| :: t[j] !in {' ', '\t', '\n', '\r', 12 as char}
       case Quoted(t) => forall j | 0 <= j < |t| :: t[j] != '"'
       case SingleQuoted(t) => forall j | 0 <= j < |t| :: t[j] != '\''
  }

  function Wrap(t: string, q: char): string {
    [q] + t + [q]
  }

  function Print(p: Part): string {
    match p
    case Bare(t) => t
    case Quoted(t) => Wrap(t, '"')
    case SingleQuoted(t) => Wrap(t, '\'')
  }

  function PrintAll(ps: seq<Part>): string {
    if ps == [] then ""
    else if |ps| == 1 then Print(ps[0])
    else Print(ps[0]) + (" " + PrintAll(ps[1..]))
  }

  function Texts(ps: seq<Part>): (ts: seq<string>)
    ensures |ts| == |ps|
  {
    if ps == [] then [] else [ps[0].text] + Texts(ps[1..])
  }

  lemma {:induction false} FindIs(s: string, c: char, k: nat, n: nat)
    requires k <= n < |s| && s[n] == c && forall j | k <= j < n :: s[j] != c
    ensures Find(s, c, k) == n
    decreases n - k
  {
    if k < n { FindIs(s, c, k + 1, n); }
  }

  lemma {:induction false} RunLengthIs(s: string, n: nat)
    requires n <= |s| && (n < |s| ==> IsBlank(s[n])) && forall j | 0 <= j < n :: !IsBlank(s[j])
    ensures RunLength(s) == n
  {
    if n > 0 { RunLengthIs(s[1..], n - 1); }
  }

  lemma TrimWrapped(t: string, q: char)
    requires QuoteFreeEnds(t) && (q == '"' || q == '\'')
    ensures Trim(t) == t && Trim(Wrap(t, q)) == t
  {
    var w := Wrap(t, q);
    assert w[1..] == t + [q];
    if t == "" {
      assert w[1..] == [q] && [q][1..] == "";
      assert TrimLeft([q]) == "";
    } else {
      assert TrimLeft(w) == t + [q];
      assert (t + [q])[..|t|] == t;
    }
  }

  lemma BareMatch(t: string, tail: string)
    requires Printable(Bare(t)) && (tail != "" ==> IsBlank(tail[0]))
    ensures !IsBlank(t[0]) && MatchLength(t + tail) == |t|
  {
    var s := t + tail;
    assert forall j | 0 <= j < |t| :: s[j] == t[j];
    assert tail != "" ==> s[|t|] == tail[0];
    RunLengthIs(s, |t|);
  }

  lemma QuotedMatch(t: string, q: char, tail: string)
    requires (q == '"' || q == '\'') && forall j | 0 <= j < |t| :: t[j] != q
    ensures MatchLength(Wrap(t, q) + tail) == |t| + 2
  {
    var s := Wrap(t, q) + tail;
    forall j | 1 <= j < 1 + |t|
      ensures s[j] != q
    {
      assert s[j] == Wrap(t, q)[j] == t[j - 1];
    }
    assert s[0] == q && s[1 + |t|] == q;
    FindIs(s, q, 1, 1 + |t|);
  }

  /** A printable part is one match: a bare one when a blank or the end follows, one in quotes
      whatever follows. */
  lemma PartsOfPrinted(p: Part, tail: string)
    requires Printable(p) && (p.Bare? && tail != "" ==> tail[0] in {' ', '\t', '\n', '\r', 12 as char})
    ensures Parts(Print(p) + tail) == [p.text] + Parts(tail)
  {
    var s := Print(p) + tail;
    match p {
      case Bare(t) => TrimWrapped(t, '"'); BareMatch(t, tail);
      case Quoted(t) => TrimWrapped(t, '"'); QuotedMatch(t, '"', tail);
      case SingleQuoted(t) => TrimWrapped(t, '\''); QuotedMatch(t, '\'', tail);
    }
    assert s[..|Print(p)|] == Print(p) && s[|Print(p)|..] == tail;
    assert s[0] == Print(p)[0];
    hide Trim, MatchLength;
  }

  /** White space before a part is skipped. */
  lemma PartsOfBlank(c: char, tail: string)
    requires c in {' ', '\t', '\n', '\r', 12 as char}
    ensures Parts([c] + tail) == Parts(tail) && Parts("") == []
  {
    assert ([c] + tail)[1..] == tail;
  }

  /** Parsing what was printed gives the texts back. */
  lemma {:induction false} ParsePrinted(ps: seq<Part>)
    requires forall i | 0 <= i < |ps| :: Printable(ps[i])
    ensures Parts(PrintAll(ps)) == Texts(ps)
  {
    if |ps| > 0 {
      assert Printable(ps[0]);
      hide Printable, Print, Trim, MatchLength;
      if |ps| == 1 {
        PartsOfPrinted(ps[0], "");
        assert Print(ps[0]) + "" == Print(ps[0]);
        assert Texts(ps[1..]) == [] && Parts("") == [];
      } else {
        var tail := " " + PrintAll(ps[1..]);
        PartsOfPrinted(ps[0], tail);
        ParsePrinted(ps[1..]);
        PartsOfBlank(' ', PrintAll(ps[1..]));
      }
    }
  }

  // ---------- no other text survives ----------

  lemma {:induction false} NonBlankIsPart(s: string, j: nat)
    requires j < |s| && !IsBlank(s[j])
    ensures Parts(s) != []
    decreases |s|
  {
    if IsBlank(s[0]) { NonBlankIsPart(s[1..], j - 1); }
  }

  lemma {:induction false} PartsShorter(s: string)
    ensures forall i | 0 <= i < |Parts(s)| :: |Parts(s)[i]| <= |s|
    decreases |s|
  {
    hide Trim, MatchLength;
    if s != "" {
      if IsBlank(s[0]) { PartsShorter(s[1..]); } else { PartsShorter(s[MatchLength(s)..]); }
    }
  }

  lemma OnePart(p: Part)
    requires Printable(p)
    ensures Parts(Print(p)) == [p.text]
  {
    ParsePrinted([p]);
    assert Texts([p]) == [p.text] && PrintAll([p]) == Print(p);
  }

  /** A text comes back from being sent bare exactly when it is printable bare. */
  lemma BareIff(t: string)
    ensures Parts(t) == [t] <==> Printable(Bare(t))
  {
    if Printable(Bare(t)) { OnePart(Bare(t)); }
    if Parts(t) == [t] { BareNeeded(t); }
  }

  lemma BareNeeded(t: string)
    requires Parts(t) == [t]
    ensures Printable(Bare(t))
  {
    PartsShorter(t[1..]);
    var n := MatchLength(t);
    assert Parts(t)[0] == Trim(t[..n]) == t;
    assert n == |t| && t[..n] == t;
    assert TrimLeft(t) == t && TrimRight(t) == t;
  }

  /** A text comes back from being sent in double quotes exactly when it is printable so. */
  lemma QuotedIff(t: string)
    ensures Parts("\"" + t + "\"") == [t] <==> Printable(Quoted(t))
  {
    assert "\"" + t + "\"" == Wrap(t, '"');
    if Printable(Quoted(t)) { OnePart(Quoted(t)); }
    if Parts(Wrap(t, '"')) == [t] { QuotedNeeded(t, '"'); }
  }

  /** And in single quotes likewise. */
  lemma SingleQuotedIff(t: string)
    ensures Parts("'" + t + "'") == [t] <==> Printable(SingleQuoted(t))
  {
    assert "'" + t + "'" == Wrap(t, '\'');
    if Printable(SingleQuoted(t)) { OnePart(SingleQuoted(t)); }
    if Parts(Wrap(t, '\'')) == [t] { QuotedNeeded(t, '\''); }
  }

  lemma InnerQuoteSplits(t: string, q: char)
    requires (q == '"' || q == '\'') && Find(Wrap(t, q), q, 1) < |t| + 1
    ensures |Parts(Wrap(t, q))| >= 2
  {
    var s := Wrap(t, q);
    var n := Find(s, q, 1);
    assert s[0] == q && s[|s| - 1] == q;
    assert s[n + 1..][|s| - n - 2] == q;
    NonBlankIsPart(s[n + 1..], |s| - n - 2);
  }

  lemma QuotedNeeded(t: string, q: char)
    requires (q == '"' || q == '\'') && Parts(Wrap(t, q)) == [t]
    ensures QuoteFreeEnds(t) && forall j | 0 <= j < |t| :: t[j] != q
  {
    var s := Wrap(t, q);
    assert s[0] == q && s[|t| + 1] == q && s[1..] == t + [q];
    var n := Find(s, q, 1);
    if n < |t| + 1 { InnerQuoteSplits(t, q); }
    assert s[..n + 1] == s && Parts(s)[0] == Trim(s);
    forall j | 0 <= j < |t|
      ensures t[j] != q
    {
      assert s[j + 1] == t[j];
    }
    TrimKeepsEnds(t, q);
  }

  lemma {:induction false} TrimLeftEnd(u: string)
    requires u != "" && IsQuote(u[|u| - 1])
    ensures TrimLeft(u) == "" || IsQuote(TrimLeft(u)[|TrimLeft(u)| - 1])
  {
    if IsQuote(u[0]) && |u| > 1 { TrimLeftEnd(u[1..]); }
  }

  lemma TrimKeepsEnds(t: string, q: char)
    requires (q == '"' || q == '\'') && Trim(t + [q]) == t
    ensures QuoteFreeEnds(t)
  {
    var u := t + [q];
    TrimLeftEnd(u);
    assert u[..|t|] == t && TrimRight(u) == TrimRight(t);
    assert t != "" ==> u[0] == t[0];
  }

  // ---------- the array reply ----------

  function Bulk(item: string): string {
    "$" + Itoa(|item|) + "\r\n" + item + "\r\n"
  }

  function Bulks(items: seq<string>): string {
    if items == [] then "" else Bulks(items[..|items| - 1]) + Bulk(items[|items| - 1])
  }

  method FormatArrayResponse(items: seq<string>) returns (response: string)
    ensures response == "*" + Itoa(|items|) + "\r\n" + Bulks(items)
  {
    response := "*" + Itoa(|items|) + "\r\n";
    hide Itoa;
    for i := 0 to |items|
      invariant response == "*" + Itoa(|items|) + "\r\n" + Bulks(items[..i])
    {
      assert items[..i + 1][..i] == items[..i];
      response := response + ("$" + Itoa(|items[i]|) + "\r\n");
      response := response + (items[i] + "\r\n");
      assert response == "*" + Itoa(|items|) + "\r\n" + (Bulks(items[..i]) + Bulk(items[i]));
    }
    assert items[..|items|] == items;
  }

  /** A length line of the RESP protocol: a marker, a decimal number, CRLF. */
  function ReadLength(s: string, marker: char): Option<(nat, string)> {
    if s == "" || s[0] != marker then None
    else
      var n := Find(s, '\r', 1);
      if n + 1 >= |s| || s[n + 1] != '\n' then None
      else match Atoi(s[1..n])
        case Some(length) => if length >= 0 then Some((length, s[n + 2..])) else None
        case None => None
  }

  /** A length-prefixed reader of one bulk string (RESP specification, section "Bulk strings"). */
  function ReadBulk(s: string): Option<(string, string)> {
    match ReadLength(s, '$')
    case None => None
    case Some((n, rest)) =>
      if n + 2 <= |rest| && rest[n..n + 2] == "\r\n" then Some((rest[..n], rest[n + 2..])) else None
  }

  function ReadBulks(n: nat, s: string): Option<(seq<string>, string)> {
    if n == 0 then Some(([], s))
    else match ReadBulk(s)
      case None => None
      case Some((item, rest)) =>
        match ReadBulks(n - 1, rest)
        case None => None
        case Some((items, rest')) => Some(([item] + items, rest'))
  }

  /** A reader of arrays of bulk strings (RESP specification, section "Arrays"). */
  function ReadArray(s: string): Option<(seq<string>, string)> {
    match ReadLength(s, '*')
    case None => None
    case Some((n, rest)) => ReadBulks(n, rest)
  }

  lemma LengthReadBack(marker: char, n: nat, rest: string)
    requires n <= MAX_INT
    ensures ReadLength([marker] + Itoa(n) + "\r\n" + rest, marker) == Some((n, rest))
  {
    var d := DigitsOf(n);
    var s := [marker] + d + "\r\n" + rest;
    assert Itoa(n) == d;
    forall j | 1 <= j < 1 + |d|
      ensures s[j] != '\r'
    {
      assert s[j] == d[j - 1] && IsDigit(d[j - 1]);
    }
    assert s[1 + |d|] == '\r' && s[2 + |d|] == '\n';
    FindIs(s, '\r', 1, 1 + |d|);
    assert s[1..1 + |d|] == d && s[3 + |d|..] == rest;
    AtoiOfItoa(n);
  }

  lemma BulkReadBack(item: string, rest: string)
    requires |item| <= MAX_INT
    ensures ReadBulk(Bulk(item) + rest) == Some((item, rest))
  {
    var tail := item + "\r\n" + rest;
    assert Bulk(item) + rest == ['$'] + Itoa(|item|) + "\r\n" + tail;
    LengthReadBack('$', |item|, tail);
    assert tail[..|item|] == item && tail[|item|..|item| + 2] == "\r\n" && tail[|item| + 2..] == rest;
  }

  lemma {:induction false} BulksFirst(items: seq<string>)
    requires items != []
    ensures Bulks(items) == Bulk(items[0]) + Bulks(items[1..])
  {
    hide Bulk;
    var n := |items| - 1;
    assert Bulks([]) == "";
    if n == 0 {
      assert items[..0] == [] && items[1..] == [];
    } else {
      BulksFirst(items[..n]);
      var middle, last := items[1..n], items[n];
      assert items[..n][1..] == middle && items[..n][0] == items[0];
      assert items[1..][..n - 1] == middle && items[1..][n - 1] == last;
      assert Bulks(items[1..]) == Bulks(middle) + Bulk(last);
      hide Bulks;
      assert (Bulk(items[0]) + Bulks(middle)) + Bulk(last) == Bulk(items[0]) + (Bulks(middle) + Bulk(last));
    }
  }

  lemma {:induction false} BulksReadBack(items: seq<string>, rest: string)
    requires forall k | 0 <= k < |items| :: |items[k]| <= MAX_INT
    ensures ReadBulks(|items|, Bulks(items) + rest) == Some((items, rest))
    decreases |items|
  {
    if items == [] {
      assert "" + rest == rest;
    } else {
      BulksFirst(items);
      hide Bulk, Bulks, ReadBulk, ReadBulks;
      var first, others := Bulk(items[0]), Bulks(items[1..]);
      assert first + others + rest == first + (others + rest);
      BulkReadBack(items[0], others + rest);
      BulksReadBack(items[1..], rest);
      ReadBulksStep(|items|, Bulks(items) + rest, items[0], others + rest, items[1..], rest);
      assert [items[0]] + items[1..] == items;
    }
  }

  lemma ReadBulksStep(n: nat, s: string, item: string, tail: string, items: seq<string>, rest: string)
    requires n > 0 && ReadBulk(s) == Some((item, tail)) && ReadBulks(n - 1, tail) == Some((items, rest))
    ensures ReadBulks(n, s) == Some(([item] + items, rest))
  {
    hide ReadBulk;
  }

  /** A length-prefixed reader recovers any list of items, whatever bytes they hold, and leaves
      what follows the reply untouched. */
  lemma ArrayReadBack(items: seq<string>, rest: string)
    requires |items| <= MAX_INT && forall k | 0 <= k < |items| :: |items[k]| <= MAX_INT
    ensures ReadArray("*" + Itoa(|items|) + "\r\n" + Bulks(items) + rest) == Some((items, rest))
  {
    assert "*" + Itoa(|items|) + "\r\n" + Bulks(items) + rest == ['*'] + Itoa(|items|) + "\r\n" + (Bulks(items) + rest);
    LengthReadBack('*', |items|, Bulks(items) + rest);
    BulksReadBack(items, rest);
  }
}
