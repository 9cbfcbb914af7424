/**
 The TypeScript SDK's parser of Go durations: an anchored pattern that must accept the whole string,
 then a global unit pattern whose successive matches are added up. Amounts are exact rationals.
 */
module Duration {
  import opened Common

  /** `Micro` is spelled with U+00B5 and `Greek` with U+03BC; both mean microseconds. */
  datatype Unit = Ns | Us | Micro | Greek | Ms | H | M | S

  function UnitText(u: Unit): string {
    match u
    case Ns => "ns"
    case Us => "us"
    case Micro => "\U{00B5}s"
    case Greek => "\U{03BC}s"
    case Ms => "ms"
    case H => "h"
    case M => "m"
    case S => "s"
  }

  function MillisecondsPer(u: Unit): real {
    match u
    case Ns => 0.000001
    case Us => 0.001
    case Micro => 0.001
    case Greek => 0.001
    case Ms => 1.0
    case H => 3600000.0
    case M => 60000.0
    case S => 1000.0
  }

  // ---------------------------------------------------------------- the language

  /** One match of the unit pattern; an empty `frac` stands for an absent fraction. */
  datatype Token = Token(whole: string, frac: string, unit: Unit)

  predicate IsDigit(c: char) {
    '0' <= c <= '9'
  }

  predicate Digits(s: string) {
    forall i :: 0 <= i < |s| ==> IsDigit(s[i])
  }

  predicate TokenOk(t: Token) {
    t.whole != "" && Digits(t.whole) && Digits(t.frac)
  }

  function Text(t: Token): (s: string)
    ensures |s| > 0
  {
    Number(t.whole, t.frac) + UnitText(t.unit)
  }

  function Number(whole: string, frac: string): string {
    whole + if frac == "" then "" else "." + frac
  }

  predicate AllOk(ts: seq<Token>) {
    forall i :: 0 <= i < |ts| ==> TokenOk(ts[i])
  }

  function Concat(ts: seq<Token>): string {
    if ts == [] then "" else Text(ts[0]) + Concat(ts[1..])
  }

  /** The strings the anchored pattern accepts: one or more unit matches and nothing else. */
  ghost predicate Accepts(s: string) {
    exists ts :: ts != [] && AllOk(ts) && Concat(ts) == s
  }

  // ---------------------------------------------------------------- values

  function NatOf(s: string): nat
    requires Digits(s)
  {
    if s == "" then 0 else 10 * NatOf(s[..|s| - 1]) + (s[|s| - 1] as int - '0' as int)
  }

  function Pow10(n: nat): (p: nat)
    ensures p >= 1
  {
    if n == 0 then 1 else 10 * Pow10(n - 1)
  }

  function Amount(t: Token): real
    requires TokenOk(t)
  {
    NatOf(t.whole) as real + NatOf(t.frac) as real / Pow10(|t.frac|) as real
  }

  function Total(ts: seq<Token>): real
    requires AllOk(ts)
  {
    if ts == [] then 0.0 else Amount(ts[0]) * MillisecondsPer(ts[0].unit) + Total(ts[1..])
  }

  // ---------------------------------------------------------------- the matcher

  /** Length of the longest run of digits at the start of `s`. */
  function DigitRun(s: string): (n: nat)
    ensures n <= |s| && Digits(s[..n]) && (n < |s| ==> !IsDigit(s[n]))
  {
    if s != "" && IsDigit(s[0]) then
      var n := DigitRun(s[1..]);
      assert s[..n + 1] == [s[0]] + s[1..][..n];
      n + 1
    else 0
  }

  /** The first alternative, in the pattern's order, that fits at the start of `s`. */
  function UnitAt(s: string): (r: Option<Unit>)
    ensures r.Some? ==> UnitText(r.value) <= s
  {
    if "ns" <= s then Some(Ns)
    else if "us" <= s then Some(Us)
    else if "\U{00B5}s" <= s then Some(Micro)
    else if "\U{03BC}s" <= s then Some(Greek)
    else if "ms" <= s then Some(Ms)
    else if "h" <= s then Some(H)
    else if "m" <= s then Some(M)
    else if "s" <= s then Some(S)
    else None
  }

  /** Length of the optional fraction at the start of `s`, point included. */
  function FracRun(s: string): (n: nat)
    ensures n <= |s| && (n > 0 ==> n >= 2 && s[0] == '.' && Digits(s[1..n]))
  {
    if s != "" && s[0] == '.' && DigitRun(s[1..]) > 0 then
      var n := DigitRun(s[1..]);
      assert s[1..n + 1] == s[1..][..n];
      n + 1
    else 0
  }

  /** The unit pattern tried at the start of `s`; both digit runs are greedy. */
  function MatchAt(s: string): Option<Token> {
    var d := DigitRun(s);
    var f := FracRun(s[d..]);
    var u := UnitAt(s[d + f..]);
    if d == 0 || u.None? then None
    else Some(Token(s[..d], if f == 0 then "" else s[d + 1..d + f], u.value))
  }

  lemma NumberIsPrefix(s: string, d: nat, f: nat)
    requires d + f <= |s| && d > 0 && Digits(s[..d])
    requires f > 0 ==> f >= 2 && s[d..][0] == '.' && Digits(s[d..][1..f])
    ensures var frac := if f == 0 then "" else s[d + 1..d + f];
            Digits(frac) && Number(s[..d], frac) == s[..d + f]
  {
    if f > 0 {
      assert s[d..][1..f] == s[d + 1..d + f];
    }
  }

  lemma MatchIsPrefix(s: string)
    requires MatchAt(s).Some?
    ensures var t := MatchAt(s).value; TokenOk(t) && Text(t) <= s
  {
    hide UnitAt, UnitText, DigitRun, FracRun, Number;
    var d := DigitRun(s);
    var f := FracRun(s[d..]);
    NumberIsPrefix(s, d, f);
    PrefixGlue(s[..d + f], UnitText(UnitAt(s[d + f..]).value), s);
  }

  lemma PrefixGlue(a: string, u: string, s: string)
    requires a <= s && u <= s[|a|..]
    ensures a + u <= s
  {
    assert s == a + s[|a|..];
  }

  /** The next match of the global pattern at or after `pos`. */
  function NextMatch(s: string, pos: nat): (r: Option<nat>)
    requires pos <= |s|
    ensures r.Some? ==> pos <= r.value <= |s|
    decreases |s| - pos
  {
    if MatchAt(s[pos..]).Some? then Some(pos)
    else if pos == |s| then None
    else NextMatch(s, pos + 1)
  }

  lemma ConcatCons(t: Token, ts: seq<Token>)
    ensures Concat([t] + ts) == Text(t) + Concat(ts)
  {
    assert ([t] + ts)[1..] == ts;
  }

  /** Greedy tokenisation of the whole string. */
  function Tokens(s: string): (r: Option<seq<Token>>)
    ensures r.Some? ==> AllOk(r.value) && Concat(r.value) == s
  {
    hide MatchAt, Text, TokenOk;
    if s == "" then Some([])
    else match MatchAt(s)
      case None => None
      case Some(t) =>
        MatchIsPrefix(s);
        match Tokens(s[|Text(t)|..])
        case None => None
        case Some(ts) =>
          ConcatCons(t, ts);
          assert s == Text(t) + s[|Text(t)|..];
          Some([t] + ts)
  }

  // ---------------------------------------------------------------- unambiguous tokenisation

  lemma {:induction false} DigitRunIs(d: string, rest: string)
    requires Digits(d) && (rest != "" ==> !IsDigit(rest[0]))
    ensures DigitRun(d + rest) == |d|
  {
    if d == "" {
      assert d + rest == rest;
    } else {
      assert (d + rest)[1..] == d[1..] + rest;
      DigitRunIs(d[1..], rest);
    }
  }

  /** What the alternation picks where `u` fits: `u` itself, unless it is the `m` of an `ms`. */
  function Preferred(u: Unit, rest: string): Unit {
    if u == M && "s" <= rest then Ms else u
  }

  lemma UnitIsRead(u: Unit, rest: string)
    ensures UnitAt(UnitText(u) + rest) == Some(Preferred(u, rest))
  {
    var s := UnitText(u) + rest;
    assert s[0] == UnitText(u)[0];
    if |UnitText(u)| > 1 {
      assert s[1] == UnitText(u)[1];
    } else if rest != "" {
      assert s[1] == rest[0];
    }
  }

  lemma FracIsRead(frac: string, u: string)
    requires Digits(frac) && u != "" && !IsDigit(u[0]) && u[0] != '.'
    ensures var v := (if frac == "" then "" else "." + frac) + u;
            FracRun(v) == if frac == "" then 0 else 1 + |frac|
  {
    hide DigitRun;
    if frac != "" {
      var v := "." + frac + u;
      assert v[1..] == frac + u;
      DigitRunIs(frac, u);
    }
  }

  lemma UnitStartsClean(u: Unit, rest: string)
    ensures var s := UnitText(u) + rest; s != "" && !IsDigit(s[0]) && s[0] != '.'
  {
    assert (UnitText(u) + rest)[0] == UnitText(u)[0];
  }

  /**
   Wherever some token fits, the pattern matches, and every token that fits there has the same number:
   backtracking has no choice but between `m` and `ms`, and takes `ms`.
   */
  lemma TokenIsRead(t: Token, rest: string)
    requires TokenOk(t)
    ensures MatchAt(Text(t) + rest) == Some(t.(unit := Preferred(t.unit, rest)))
  {
    hide UnitAt, UnitText, DigitRun, FracRun, Preferred, Number;
    var u := UnitText(t.unit) + rest;
    UnitStartsClean(t.unit, rest);
    UnitIsRead(t.unit, rest);
    NumberIsRead(t.whole, t.frac, u);
    assert Text(t) + rest == Number(t.whole, t.frac) + u;
  }

  lemma NumberIsRead(whole: string, frac: string, u: string)
    requires Digits(whole) && Digits(frac) && u != "" && !IsDigit(u[0]) && u[0] != '.'
    ensures var s := Number(whole, frac) + u;
            var d := DigitRun(s);
            var f := FracRun(s[d..]);
            && s[..d] == whole && s[d + f..] == u
            && (if f == 0 then "" else s[d + 1..d + f]) == frac
  {
    hide DigitRun, FracRun;
    var p := if frac == "" then "" else "." + frac;
    assert Number(whole, frac) + u == whole + (p + u);
    DigitRunIs(whole, p + u);
    FracIsRead(frac, u);
    Slices(whole, p, u);
    assert frac != "" ==> p[1..] == frac;
  }

  lemma Slices(a: string, p: string, u: string)
    ensures var s := a + (p + u);
            && s[..|a|] == a && s[|a|..] == p + u && s[|a| + |p|..] == u
            && (p != "" ==> s[|a| + 1..|a| + |p|] == p[1..])
  {
  }

  lemma ConcatStartsWithDigit(ts: seq<Token>)
    requires AllOk(ts)
    ensures Concat(ts) != "" ==> IsDigit(Concat(ts)[0])
  {
  }

  /** Every tiling by unit matches is the one greedy tokenisation finds. */
  lemma {:induction false} TokensAreRead(ts: seq<Token>)
    requires AllOk(ts)
    ensures Tokens(Concat(ts)) == Some(ts)
    decreases |ts|
  {
    hide MatchAt, Text;
    if ts != [] {
      var rest := Concat(ts[1..]);
      TokensAreRead(ts[1..]);
      ConcatStartsWithDigit(ts[1..]);
      TokenIsRead(ts[0], rest);
      assert (Text(ts[0]) + rest)[|Text(ts[0])|..] == rest;
      assert [ts[0]] + ts[1..] == ts;
    }
  }

  /** A string can be read as a sequence of units in at most one way. */
  lemma TokenisationIsUnique(ts: seq<Token>, us: seq<Token>)
    requires AllOk(ts) && AllOk(us) && Concat(ts) == Concat(us)
    ensures ts == us
  {
    TokensAreRead(ts);
    TokensAreRead(us);
  }

  lemma AcceptsIffTokens(s: string)
    ensures Accepts(s) <==> Tokens(s).Some? && Tokens(s).value != []
  {
    hide Tokens;
    if Accepts(s) {
      var ts :| ts != [] && AllOk(ts) && Concat(ts) == s;
      TokensAreRead(ts);
    }
  }

  // ---------------------------------------------------------------- the parser

  /** The parser's result as a function: the sum over the unique tokenisation, or rejection. */
  function Parse(s: string): (r: Option<real>)
    ensures r.Some? <==> Tokens(s).Some? && Tokens(s).value != []
  {
    match Tokens(s)
    case None => None
    case Some(ts) => if ts == [] then None else Some(Total(ts))
  }

  lemma MinusIsRejected(s: string)
    requires "-" <= s
    ensures Tokens(s).None?
  {
    assert DigitRun(s) == 0;
  }

  /** At the start of a well-tokenised rest the next match is its first token, with no gap before it. */
  lemma NextIsHere(s: string, pos: nat, left: seq<Token>)
    requires pos <= |s| && AllOk(left) && s[pos..] == Concat(left)
    ensures left == [] ==> NextMatch(s, pos).None?
    ensures left != [] ==> NextMatch(s, pos) == Some(pos) && MatchAt(s[pos..]) == Some(left[0])
    ensures left != [] ==> pos + |Text(left[0])| <= |s| && s[pos + |Text(left[0])|..] == Concat(left[1..])
  {
    hide MatchAt, Text;
    if left == [] {
      EmptyHasNoMatch(s, pos);
    } else {
      ConcatStartsWithDigit(left[1..]);
      TokenIsRead(left[0], Concat(left[1..]));
      var n := |Text(left[0])|;
      assert s[pos..][n..] == s[pos + n..];
    }
  }

  lemma TotalStep(ts: seq<Token>)
    requires AllOk(ts) && ts != []
    ensures AllOk(ts[1..]) && Total(ts) == Amount(ts[0]) * MillisecondsPer(ts[0].unit) + Total(ts[1..])
  {
  }

  /**
   `parseGoDuration`: it accepts exactly the language of the anchored pattern, the successive matches of
   the global pattern tile the string with no gap, and the result is their sum.
   */
  method ParseGoDuration(duration: string) returns (r: Option<real>)
    ensures r.Some? <==> Accepts(duration)
    ensures r == Parse(duration)
    ensures forall ts :: ts != [] && AllOk(ts) && Concat(ts) == duration ==> r == Some(Total(ts))
  {
    hide Tokens, Concat, Total, MatchAt, NextMatch, Text, Amount;
    AcceptsIffTokens(duration);
    if "-" <= duration {
      MinusIsRejected(duration);
      return None;
    }
    if Tokens(duration).None? || Tokens(duration) == Some([]) {
      return None;
    }
    ghost var all := Tokens(duration).value;
    var total := SumMatches(duration, all);
    r := Some(total);
    forall ts | ts != [] && AllOk(ts) && Concat(ts) == duration
      ensures r == Some(Total(ts))
    {
      TokenisationIsUnique(ts, all);
    }
  }

  /** The loop over `matchAll`. */
  method SumMatches(duration: string, ghost all: seq<Token>) returns (total: real)
    requires AllOk(all) && Concat(all) == duration
    ensures total == Total(all)
  {
    hide Concat, MatchAt, NextMatch, Text, Amount, MillisecondsPer;
    ghost var left := all;
    var pos: nat := 0;
    total := 0.0;
    var next := NextMatch(duration, pos);
    while next.Some?
      invariant pos <= |duration| && AllOk(left)
      invariant duration[pos..] == Concat(left)
      invariant next == NextMatch(duration, pos)
      invariant total + Total(left) == Total(all)
      decreases |left|
    {
      NextIsHere(duration, pos, left);
      var t := MatchAt(duration[next.value..]).value;
      TotalStep(left);
      total := total + Amount(t) * MillisecondsPer(t.unit);
      pos := next.value + |Text(t)|;
      left := left[1..];
      next := NextMatch(duration, pos);
    }
    NextIsHere(duration, pos, left);
  }

  lemma EmptyHasNoMatch(s: string, pos: nat)
    requires pos <= |s| && s[pos..] == ""
    ensures NextMatch(s, pos).None?
  {
  }

  // ---------------------------------------------------------------- additivity

  lemma {:induction false} ConcatAppend(ts: seq<Token>, us: seq<Token>)
    requires AllOk(ts) && AllOk(us)
    ensures Concat(ts + us) == Concat(ts) + Concat(us) && Total(ts + us) == Total(ts) + Total(us)
    decreases |ts|
  {
    hide Text, Amount, MillisecondsPer;
    if ts == [] {
      assert ts + us == us;
    } else {
      assert (ts + us)[1..] == ts[1..] + us && (ts + us)[0] == ts[0];
      ConcatAppend(ts[1..], us);
    }
  }

  /** Writing two accepted durations one after the other adds them. */
  lemma ParsingIsAdditive(a: string, b: string)
    requires Accepts(a) && Accepts(b)
    ensures Accepts(a + b) && Parse(a).Some? && Parse(b).Some?
    ensures Parse(a + b) == Some(Parse(a).value + Parse(b).value)
  {
    hide Tokens, Concat, Total;
    AcceptsIffTokens(a);
    AcceptsIffTokens(b);
    var ts, us := Tokens(a).value, Tokens(b).value;
    ConcatAppend(ts, us);
    TokensAreRead(ts + us);
    AcceptsIffTokens(a + b);
  }

  /** A number and a unit parse to the number times the unit; the number is read alike whatever the unit. */
  lemma OneTokenParses(whole: string, frac: string, u: Unit)
    requires whole != "" && Digits(whole) && Digits(frac)
    ensures Parse(Number(whole, frac) + UnitText(u)) == Some(Amount(Token(whole, frac, Ms)) * MillisecondsPer(u))
  {
    hide Tokens, Text, Digits, NatOf;
    var t := Token(whole, frac, u);
    OneToken(t);
    TokensAreRead([t]);
    assert Amount(t) == Amount(Token(whole, frac, Ms));
  }

  /** Units of the same worth, such as the three spellings of a microsecond, are read alike. */
  lemma SpellingsParseAlike(whole: string, frac: string, u: Unit, v: Unit)
    requires whole != "" && Digits(whole) && Digits(frac) && MillisecondsPer(u) == MillisecondsPer(v)
    ensures var a, b := Parse(Number(whole, frac) + UnitText(u)), Parse(Number(whole, frac) + UnitText(v));
            a.Some? && b.Some? && a.value == b.value
  {
    hide Parse, Amount, Digits, Number, UnitText, MillisecondsPer, Tokens;
    OneTokenParses(whole, frac, u);
    OneTokenParses(whole, frac, v);
    SameProduct(Amount(Token(whole, frac, Ms)), MillisecondsPer(u), MillisecondsPer(v));
  }

  lemma SameProduct(amount: real, x: real, y: real)
    requires x == y
    ensures amount * x == amount * y
  {
  }

  lemma OneToken(t: Token)
    requires TokenOk(t)
    ensures Concat([t]) == Text(t) == Number(t.whole, t.frac) + UnitText(t.unit)
    ensures AllOk([t]) && Total([t]) == Amount(t) * MillisecondsPer(t.unit)
  {
    hide Digits, Amount;
    assert [t][1..] == [];
    assert Concat([t]) == Text(t) + "";
  }

  /** What a unit is written as, and what it is worth, in one table. */
  lemma UnitTable()
    ensures UnitText(Ns) == "ns" && UnitText(Us) == "us" && UnitText(Ms) == "ms"
    ensures UnitText(Micro) == "\U{00B5}s" && UnitText(Greek) == "\U{03BC}s"
    ensures UnitText(S) == "s" && UnitText(M) == "m" && UnitText(H) == "h"
    ensures MillisecondsPer(Us) == MillisecondsPer(Micro) == MillisecondsPer(Greek)
    ensures 1000.0 * MillisecondsPer(Ns) == MillisecondsPer(Us) && 1000.0 * MillisecondsPer(Us) == MillisecondsPer(Ms)
    ensures 1000.0 * MillisecondsPer(Ms) == MillisecondsPer(S)
    ensures 60.0 * MillisecondsPer(S) == MillisecondsPer(M) && 60.0 * MillisecondsPer(M) == MillisecondsPer(H)
  {
  }

  // ---------------------------------------------------------------- Go's printer

  function Dec(n: nat): (s: string)
    ensures s != "" && Digits(s) && NatOf(s) == n
  {
    if n < 10 then
      var s := [('0' as int + n) as char];
      assert s[..0] == "";
      s
    else
      var s := Dec(n / 10) + [('0' as int + n % 10) as char];
      assert s[..|s| - 1] == Dec(n / 10);
      s
  }

  /** `fmtFrac`: the last `prec` decimal digits of `v` without trailing zeros. */
  function Frac(v: nat, prec: nat, printing: bool := false): (s: string)
    ensures Digits(s) && |s| <= prec
  {
    if prec == 0 then ""
    else
      var shown := printing || v % 10 != 0;
      Frac(v / 10, prec - 1, shown) + if shown then [('0' as int + v % 10) as char] else ""
  }

  const SECOND: nat := 1_000_000_000

  function SecondsToken(d: nat): (t: Token)
    ensures TokenOk(t)
  {
    Token(Dec(d / SECOND % 60), Frac(d % SECOND, 9), S)
  }

  /** `time.Duration.String` for a non-negative number of nanoseconds. */
  function GoTokens(d: nat): (ts: seq<Token>)
    ensures AllOk(ts) && ts != []
  {
    if d == 0 then [Token("0", "", S)]
    else if d < 1_000 then [Token(Dec(d), "", Ns)]
    else if d < 1_000_000 then [Token(Dec(d / 1_000), Frac(d % 1_000, 3), Micro)]
    else if d < SECOND then [Token(Dec(d / 1_000_000), Frac(d % 1_000_000, 6), Ms)]
    else
      var mins := d / SECOND / 60;
      var last := [SecondsToken(d)];
      if mins == 0 then last
      else if mins / 60 == 0 then [Token(Dec(mins % 60), "", M)] + last
      else [Token(Dec(mins / 60), "", H)] + ([Token(Dec(mins % 60), "", M)] + last)
  }

  function GoString(d: nat): string {
    Concat(GoTokens(d))
  }

  lemma {:induction false} FracValue(v: nat, prec: nat, printing: bool)
    requires v < Pow10(prec)
    ensures var s := Frac(v, prec, printing);
            && NatOf(s) * Pow10(prec - |s|) == v
            && (printing ==> |s| == prec)
    decreases prec
  {
    hide NatOf, Digits;
    if prec == 0 {
      NatOfNothing();
    } else {
      var shown := printing || v % 10 != 0;
      var t := Frac(v / 10, prec - 1, shown);
      FracValue(v / 10, prec - 1, shown);
      if shown {
        SnocDigit(t, v % 10);
      } else {
        assert Frac(v, prec, printing) == t;
        TrailingZero(NatOf(t), prec - 1 - |t|, v);
      }
    }
  }

  lemma NatOfNothing()
    ensures NatOf("") == 0
  {
  }

  lemma TrailingZero(n: nat, k: nat, v: nat)
    requires n * Pow10(k) == v / 10 && v % 10 == 0
    ensures n * Pow10(k + 1) == v
  {
    assert n * (10 * Pow10(k)) == 10 * (n * Pow10(k));
  }

  lemma SnocDigit(t: string, d: nat)
    requires Digits(t) && d < 10
    ensures var s := t + [('0' as int + d) as char]; Digits(s) && NatOf(s) == 10 * NatOf(t) + d
  {
    var s := t + [('0' as int + d) as char];
    assert s[..|s| - 1] == t;
  }

  lemma {:induction false} Pow10Add(a: nat, b: nat)
    ensures Pow10(a + b) == Pow10(a) * Pow10(b)
  {
    if a > 0 {
      Pow10Add(a - 1, b);
      assert Pow10(a) * Pow10(b) == 10 * (Pow10(a - 1) * Pow10(b));
    }
  }

  lemma SameRatio(n: nat, p: nat, q: nat, v: nat)
    requires p >= 1 && q >= 1 && n * q == v
    ensures n as real / p as real == v as real / (p * q) as real
  {
    var x, y, z := n as real, p as real, q as real;
    assert v as real == x * z && (p * q) as real == y * z;
    assert x / y == (x * z) / (y * z) by {
      var r := x / y;
      assert r * y == x;
      assert r * (y * z) == (r * y) * z;
    }
  }

  /** A printed amount is exactly the number it was printed from. */
  lemma PrintedAmount(w: nat, v: nat, prec: nat, unit: Unit)
    requires v < Pow10(prec)
    ensures Amount(Token(Dec(w), Frac(v, prec), unit)) == w as real + v as real / Pow10(prec) as real
  {
    var s := Frac(v, prec);
    FracValue(v, prec, false);
    Pow10Add(|s|, prec - |s|);
    SameRatio(NatOf(s), Pow10(|s|), Pow10(prec - |s|), v);
  }

  lemma WholeAmount(w: nat, unit: Unit)
    ensures Amount(Token(Dec(w), "", unit)) == w as real
  {
  }

  lemma Powers()
    ensures Pow10(3) == 1_000 && Pow10(6) == 1_000_000 && Pow10(9) == SECOND
  {
    assert Pow10(3) == 1_000;
    Pow10Add(3, 3);
    Pow10Add(3, 6);
  }

  lemma TotalOne(t: Token)
    requires TokenOk(t)
    ensures Total([t]) == Amount(t) * MillisecondsPer(t.unit)
  {
  }

  lemma SplitSeconds(d: nat)
    ensures (d / SECOND) as real * 1000.0 + ((d % SECOND) as real / SECOND as real) * 1000.0 == d as real / 1000000.0
  {
    assert d == d / SECOND * SECOND + d % SECOND;
    assert d as real == (d / SECOND) as real * SECOND as real + (d % SECOND) as real;
  }

  lemma ClockSum(d: nat)
    ensures var secs := d / SECOND;
            var mins := secs / 60;
            (mins / 60) as real * 3600000.0 + ((mins % 60) as real * 60000.0
            + ((secs % 60) as real * 1000.0 + ((d % SECOND) as real / SECOND as real) * 1000.0))
            == d as real / 1000000.0
  {
    SplitSeconds(d);
    var secs := d / SECOND;
    assert secs as real == (secs / 60) as real * 60.0 + (secs % 60) as real;
    var mins := secs / 60;
    assert mins as real == (mins / 60) as real * 60.0 + (mins % 60) as real;
  }

  lemma PrintedSeconds(d: nat)
    ensures Total([SecondsToken(d)]) ==
            (d / SECOND % 60) as real * 1000.0 + ((d % SECOND) as real / SECOND as real) * 1000.0
  {
    hide Amount, Dec, Frac, Total, Pow10;
    Powers();
    PrintedAmount(d / SECOND % 60, d % SECOND, 9, S);
    TotalOne(SecondsToken(d));
  }

  lemma PrintedWhole(w: nat, unit: Unit)
    ensures Total([Token(Dec(w), "", unit)]) == w as real * MillisecondsPer(unit)
  {
    hide Amount, Dec, Total;
    WholeAmount(w, unit);
    TotalOne(Token(Dec(w), "", unit));
  }

  /** The tokens of hours, minutes and seconds add up to the duration. */
  lemma PrintedClock(d: nat)
    requires d >= SECOND
    ensures Total(GoTokens(d)) == d as real / 1000000.0
  {
    hide Amount, Dec, Frac, Total, Concat, SecondsToken;
    var mins, last := d / SECOND / 60, [SecondsToken(d)];
    var m, h := [Token(Dec(mins % 60), "", M)], [Token(Dec(mins / 60), "", H)];
    ClockSum(d);
    PrintedSeconds(d);
    PrintedWhole(mins % 60, M);
    PrintedWhole(mins / 60, H);
    ConcatAppend(m, last);
    ConcatAppend(h, m + last);
  }

  lemma PrintedSubsecond(d: nat)
    requires d < SECOND
    ensures Total(GoTokens(d)) == d as real / 1000000.0
  {
    hide Amount, Dec, Frac;
    Powers();
    var t := GoTokens(d)[0];
    assert GoTokens(d) == [t];
    TotalOne(t);
    if d == 0 {
      ZeroSeconds();
    } else if d < 1_000 {
      WholeAmount(d, Ns);
    } else if d < 1_000_000 {
      PrintedAmount(d / 1_000, d % 1_000, 3, Micro);
      assert d == d / 1_000 * 1_000 + d % 1_000;
    } else {
      PrintedAmount(d / 1_000_000, d % 1_000_000, 6, Ms);
      assert d == d / 1_000_000 * 1_000_000 + d % 1_000_000;
    }
  }

  lemma ZeroSeconds()
    ensures Amount(Token("0", "", S)) == 0.0
  {
    assert "0"[..0] == "";
  }

  /** Round trip: parsing what Go prints gives back the duration, for every number of nanoseconds. */
  lemma ParseInvertsGoString(d: nat)
    ensures Accepts(GoString(d)) && Parse(GoString(d)) == Some(d as real / 1000000.0)
  {
    hide Tokens, Concat, Total, GoTokens;
    TokensAreRead(GoTokens(d));
    AcceptsIffTokens(GoString(d));
    if d < SECOND {
      PrintedSubsecond(d);
    } else {
      PrintedClock(d);
    }
  }
}
