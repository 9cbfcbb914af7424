/**
 The CommonMark-to-mrkdwn converter: three regular-expression passes and a sentinel character.

 Each pass replaces, from left to right, the leftmost match of its pattern, and the patterns are lazy:
 of the matches that begin at one place the one with the shortest groups is taken. `LinkMatch`,
 `BoldMatch` and `ItalicMatch` say what a match is; the search functions are proved to find that one.
 */
module SlackMarkdown {
  import opened Common

  /** U+E000, which fences a converted bold span so that the italic pass leaves it alone. */
  const MARK := '\U{E000}'

  // ---------------------------------------------------------------- matches

  /** `.` matches anything but a newline. */
  predicate OneLine(s: string) {
    '\n' !in s
  }

  /** `\S` in Go's syntax: no ASCII white space. */
  predicate NoSpace(s: string) {
    ' ' !in s && '\t' !in s && '\n' !in s && '\r' !in s && '\U{000C}' !in s
  }

  /** `\*\*(.+?)\*\*` matches at the start of `s`, its group ending at `j`. */
  predicate BoldMatch(s: string, j: nat) {
    3 <= j && j + 2 <= |s| && s[0] == s[1] == '*' && s[j] == s[j + 1] == '*' && OneLine(s[2..j])
  }

  /** `\*(.+?)\*` */
  predicate ItalicMatch(s: string, j: nat) {
    2 <= j < |s| && s[0] == '*' && s[j] == '*' && OneLine(s[1..j])
  }

  /** `\[(.+?)\]\((\S+?)\)`, the groups ending at `j` and `k`. */
  predicate LinkMatch(s: string, j: nat, k: nat) {
    2 <= j && j + 3 <= k < |s|
    && s[0] == '[' && s[j] == ']' && s[j + 1] == '(' && s[k] == ')'
    && OneLine(s[1..j]) && NoSpace(s[j + 2..k])
  }

  function BoldEnd(s: string, from: nat := 0): (r: Option<nat>)
    ensures r.Some? ==> from <= r.value < |s| && BoldMatch(s, r.value) &&
                        (forall j: nat :: from <= j < r.value ==> !BoldMatch(s, j))
    ensures r.None? ==> (forall j: nat :: from <= j ==> !BoldMatch(s, j))
    decreases |s| - from
  {
    if from >= |s| then None else if BoldMatch(s, from) then Some(from) else BoldEnd(s, from + 1)
  }

  function ItalicEnd(s: string, from: nat := 0): (r: Option<nat>)
    ensures r.Some? ==> from <= r.value < |s| && ItalicMatch(s, r.value) &&
                        (forall j: nat :: from <= j < r.value ==> !ItalicMatch(s, j))
    ensures r.None? ==> (forall j: nat :: from <= j ==> !ItalicMatch(s, j))
    decreases |s| - from
  {
    if from >= |s| then None else if ItalicMatch(s, from) then Some(from) else ItalicEnd(s, from + 1)
  }

  /** The end of the URL group for a text group that ends at `j`. */
  function UrlEnd(s: string, j: nat, from: nat := 0): (r: Option<nat>)
    ensures r.Some? ==> from <= r.value < |s| && LinkMatch(s, j, r.value) &&
                        (forall k: nat :: from <= k < r.value ==> !LinkMatch(s, j, k))
    ensures r.None? ==> (forall k: nat :: from <= k ==> !LinkMatch(s, j, k))
    decreases |s| - from
  {
    if from >= |s| then None else if LinkMatch(s, j, from) then Some(from) else UrlEnd(s, j, from + 1)
  }

  /** The shortest text group for which the rest of the pattern can match. */
  function TextEnd(s: string, from: nat := 0): (r: Option<nat>)
    ensures r.Some? ==> from <= r.value < |s| && UrlEnd(s, r.value).Some? &&
                        (forall j: nat, k: nat :: from <= j < r.value ==> !LinkMatch(s, j, k))
    ensures r.None? ==> (forall j: nat, k: nat :: from <= j ==> !LinkMatch(s, j, k))
    decreases |s| - from
  {
    if from >= |s| then None else if UrlEnd(s, from).Some? then Some(from) else TextEnd(s, from + 1)
  }

  // ---------------------------------------------------------------- passes

  function Angled(url: string, text: string): string {
    "<" + url + "|" + text + ">"
  }

  function Links(s: string): string {
    if s == "" then ""
    else match TextEnd(s)
      case Some(j) =>
        var k := UrlEnd(s, j).value;
        Angled(s[j + 2..k], s[1..j]) + Links(s[k + 1..])
      case None => [s[0]] + Links(s[1..])
  }

  function Fenced(text: string): string {
    [MARK] + text + [MARK]
  }

  function Underscored(text: string): string {
    "_" + text + "_"
  }

  function Bolds(s: string): string {
    if s == "" then ""
    else match BoldEnd(s)
      case Some(j) => Fenced(s[2..j]) + Bolds(s[j + 2..])
      case None => [s[0]] + Bolds(s[1..])
  }

  function Italics(s: string): string {
    if s == "" then ""
    else match ItalicEnd(s)
      case Some(j) => Underscored(s[1..j]) + Italics(s[j + 1..])
      case None => [s[0]] + Italics(s[1..])
  }

  function Remove(s: string, cs: set<char>): string {
    if s == "" then "" else (if s[0] in cs then "" else [s[0]]) + Remove(s[1..], cs)
  }

  function Unmark(s: string): string {
    seq(|s|, i requires 0 <= i < |s| => if s[i] == MARK then '*' else s[i])
  }

  function MarkdownToSlackMrkdwn(text: string): string {
    Unmark(Italics(Bolds(Links(Remove(text, {MARK})))))
  }

  // ---------------------------------------------------------------- documents

  datatype Span = Plain(text: string) | Bold(text: string) | Italic(text: string) | Link(text: string, url: string)

  function CommonMark(p: Span): string {
    match p
    case Plain(t) => t
    case Bold(t) => "**" + t + "**"
    case Italic(t) => "*" + t + "*"
    case Link(t, u) => "[" + t + "](" + u + ")"
  }

  function Mrkdwn(p: Span): string {
    match p
    case Plain(t) => t
    case Bold(t) => "*" + t + "*"
    case Italic(t) => "_" + t + "_"
    case Link(t, u) => "<" + u + "|" + t + ">"
  }

  function Render(doc: seq<Span>, f: Span -> string): string {
    if doc == [] then "" else f(doc[0]) + Render(doc[1..], f)
  }

  const WHITE_SPACE: set<char> := {' ', '\t', '\n', '\r', '\U{000C}'}

  predicate SpaceFree(s: string) {
    forall c :: c in s ==> c !in WHITE_SPACE
  }

  predicate SpanOk(p: Span) {
    p.text != "" && '*' !in p.text && MARK !in p.text &&
    match p
    case Plain(t) => '[' !in t
    case Bold(t) => '[' !in t && '\n' !in t
    case Italic(t) => '[' !in t && '\n' !in t
    case Link(t, u) =>
      ']' !in t && '\n' !in t && u != "" && SpaceFree(u) && ')' !in u && '*' !in u && MARK !in u
  }

  predicate SpansOk(doc: seq<Span>) {
    forall i :: 0 <= i < |doc| ==> SpanOk(doc[i])
  }

  predicate IsEmphasis(p: Span) {
    p.Bold? || p.Italic?
  }

  /** An italic span is not followed at once by another span that begins with an asterisk. */
  predicate Separated(doc: seq<Span>) {
    forall i :: 0 <= i < |doc| - 1 && doc[i].Italic? ==> !IsEmphasis(doc[i + 1])
  }

  predicate DocOk(doc: seq<Span>) {
    SpansOk(doc) && Separated(doc)
  }

  /** The document's first line goes on to a bold span or to emphasis that touches an italic span. */
  predicate Closes(doc: seq<Span>) {
    doc != [] &&
    match doc[0]
    case Plain(t) => '\n' !in t && Closes(doc[1..])
    case Link(_, _) => Closes(doc[1..])
    case Bold(_) => true
    case Italic(_) => (|doc| > 1 && IsEmphasis(doc[1])) || Closes(doc[1..])
  }

  /** Italic text touches further emphasis, and a second pair of asterisks follows on that line. */
  predicate TornAtHead(doc: seq<Span>) {
    |doc| > 1 && doc[0].Italic? && IsEmphasis(doc[1]) && Closes(doc[1..])
  }

  predicate Torn(doc: seq<Span>) {
    doc != [] && (TornAtHead(doc) || Torn(doc[1..]))
  }

  /** After the link pass. */
  function Linked(p: Span): string {
    if p.Link? then Mrkdwn(p) else CommonMark(p)
  }

  /** After the bold pass. */
  function Marked(p: Span): string {
    if p.Bold? then [MARK] + p.text + [MARK] else Linked(p)
  }

  /** After the italic pass. */
  function Slanted(p: Span): string {
    if p.Italic? then Mrkdwn(p) else Marked(p)
  }

  // ---------------------------------------------------------------- one pass at a time

  lemma {:induction false} LinksSkips(a: string, b: string)
    requires '[' !in a
    ensures Links(a + b) == a + Links(b)
  {
    if a == "" {
      assert a + b == b;
    } else {
      assert (a + b)[1..] == a[1..] + b;
      LinksSkips(a[1..], b);
    }
  }

  /** With no `]` in the text and no `)` in the URL, the first candidate for each group is the one taken. */
  lemma LinksAt(s: string, j: nat, k: nat)
    requires LinkMatch(s, j, k)
    requires ']' !in s[1..j] && ')' !in s[j + 2..k]
    ensures Links(s) == "<" + s[j + 2..k] + "|" + s[1..j] + ">" + Links(s[k + 1..])
  {
    hide TextEnd, UrlEnd;
    forall i: nat, m: nat | i < j
      ensures !LinkMatch(s, i, m)
    {
      if 2 <= i {
        assert s[i] == s[1..j][i - 1];
      }
    }
    forall m: nat | m < k
      ensures !LinkMatch(s, j, m)
    {
      if j + 3 <= m {
        assert s[m] == s[j + 2..k][m - j - 2];
      }
    }
    assert TextEnd(s) == Some(j) && UrlEnd(s, j) == Some(k);
  }

  lemma LinksRewrites(t: string, u: string, b: string)
    requires SpanOk(Link(t, u))
    ensures Links(CommonMark(Link(t, u)) + b) == Mrkdwn(Link(t, u)) + Links(b)
  {
    hide Links, SpanOk;
    var s := CommonMark(Link(t, u)) + b;
    var j := |t| + 1;
    var k := j + 2 + |u|;
    assert s[1..j] == t && s[j + 2..k] == u && s[k + 1..] == b;
    LinkTextOk(t, u);
    LinksAt(s, j, k);
  }

  lemma LinkTextOk(t: string, u: string)
    requires SpanOk(Link(t, u))
    ensures t != "" && u != "" && OneLine(t) && NoSpace(u) && ']' !in t && ')' !in u
  {
  }

  lemma {:induction false} LinkPass(doc: seq<Span>)
    requires SpansOk(doc)
    ensures Links(Render(doc, CommonMark)) == Render(doc, Linked)
    decreases |doc|
  {
    if doc != [] {
      LinkPass(doc[1..]);
      var p, rest := doc[0], Render(doc[1..], CommonMark);
      if p.Link? {
        LinksRewrites(p.text, p.url, rest);
      } else {
        LinksSkips(CommonMark(p), rest);
      }
    }
  }

  lemma {:induction false} BoldsSkips(a: string, b: string)
    requires '*' !in a
    ensures Bolds(a + b) == a + Bolds(b)
  {
    if a == "" {
      assert a + b == b;
    } else {
      assert (a + b)[1..] == a[1..] + b;
      BoldsSkips(a[1..], b);
    }
  }

  lemma BoldsSkipsStar(b: string)
    requires b != "" ==> b[0] != '*'
    ensures Bolds("*" + b) == "*" + Bolds(b)
  {
    var s := "*" + b;
    assert s[1..] == b;
    assert |s| > 1 ==> s[1] == b[0];
  }

  lemma BoldsRewrites(t: string, b: string)
    requires SpanOk(Bold(t))
    ensures Bolds("**" + t + "**" + b) == [MARK] + t + [MARK] + Bolds(b)
  {
    var s := "**" + t + "**" + b;
    var j := |t| + 2;
    assert s[2..j] == t && s[j + 2..] == b;
    assert BoldMatch(s, j);
    forall i: nat | i < j
      ensures !BoldMatch(s, i)
    {
      if 3 <= i {
        assert s[i] == t[i - 2];
      }
    }
    assert BoldEnd(s) == Some(j);
  }

  // A pair of asterisks that the bold pass would take for the end of a span.

  predicate PairAt(s: string, j: nat) {
    j + 1 < |s| && s[j] == '*' && s[j + 1] == '*' && OneLine(s[..j])
  }

  ghost predicate HasPair(s: string) {
    exists j: nat :: PairAt(s, j)
  }

  lemma PairAfterText(a: string, s: string)
    requires '*' !in a
    ensures HasPair(a + s) <==> OneLine(a) && HasPair(s)
  {
    if j: nat :| PairAt(a + s, j) {
      assert j >= |a|;
      assert (a + s)[..j] == a + s[..j - |a|];
      assert PairAt(s, j - |a|);
    }
    if j: nat :| OneLine(a) && PairAt(s, j) {
      assert (a + s)[..|a| + j] == a + s[..j];
      assert PairAt(a + s, |a| + j);
    }
  }

  lemma PairAfterStar(s: string)
    ensures HasPair("*" + s) <==> (s != "" && s[0] == '*') || HasPair(s)
  {
    if s != "" && s[0] == '*' {
      assert PairAt("*" + s, 0);
    }
    if j: nat :| PairAt("*" + s, j) && j > 0 {
      assert ("*" + s)[..j] == "*" + s[..j - 1];
      assert PairAt(s, j - 1);
    }
    if j: nat :| PairAt(s, j) {
      assert ("*" + s)[..j + 1] == "*" + s[..j];
      assert PairAt("*" + s, j + 1);
    }
  }

  lemma StartsWithStar(doc: seq<Span>)
    requires SpansOk(doc)
    ensures var r := Render(doc, Linked); (r != "" && r[0] == '*') <==> (doc != [] && IsEmphasis(doc[0]))
  {
    if doc != [] {
      var p, rest := doc[0], Render(doc[1..], Linked);
      assert SpanOk(p) && Render(doc, Linked) == Linked(p) + rest;
      assert Linked(p)[0] == if IsEmphasis(p) then '*' else if p.Link? then '<' else p.text[0];
    }
  }

  lemma {:induction false} ClosesExactlyWhen(doc: seq<Span>)
    requires SpansOk(doc)
    ensures Closes(doc) <==> HasPair(Render(doc, Linked))
    decreases |doc|
  {
    hide HasPair, SpanOk;
    if doc == [] {
      NoPairInNothing();
    } else {
      var p, rest := doc[0], Render(doc[1..], Linked);
      ClosesExactlyWhen(doc[1..]);
      StartsWithStar(doc[1..]);
      TextOk(p);
      match p
      case Plain(t) => PairAfterText(t, rest);
      case Link(_, _) => PairAfterText(Linked(p), rest);
      case Bold(t) => BoldIsPair(t, rest);
      case Italic(t) =>
        assert Linked(p) + rest == "*" + (t + ("*" + rest));
        PairAfterStar(t + ("*" + rest));
        PairAfterText(t, "*" + rest);
        PairAfterStar(rest);
    }
  }

  lemma TextOk(p: Span)
    requires SpanOk(p)
    ensures p.text != "" && '*' !in p.text && (!p.Plain? ==> OneLine(p.text))
    ensures p.Link? ==> '*' !in Linked(p) && OneLine(Linked(p))
  {
  }

  lemma NoPairInNothing()
    ensures !HasPair("")
  {
  }

  lemma BoldIsPair(t: string, b: string)
    ensures HasPair("**" + t + "**" + b)
  {
    assert PairAt("**" + t + "**" + b, 0);
  }

  lemma MatchIsPair(r: string, j: nat)
    requires r != "" && r[0] == '*' && j >= 3
    ensures BoldMatch("*" + r, j) <==> PairAt(r, j - 1)
  {
    var s := "*" + r;
    if j + 2 <= |s| {
      assert s[2..j] == r[1..j - 1];
      assert r[..j - 1] == ['*'] + r[1..j - 1];
    }
  }

  /** The closing asterisk of an italic span opens a bold match exactly if the document after it closes one. */
  lemma ClosingOpensExactlyWhen(doc: seq<Span>)
    requires SpansOk(doc) && doc != [] && IsEmphasis(doc[0])
    ensures BoldEnd("*" + Render(doc, Linked)).Some? <==> Closes(doc)
  {
    hide BoldEnd, PairAt, OneLine, SpanOk;
    var p, r, rest := doc[0], Render(doc, Linked), Render(doc[1..], Linked);
    TextOk(p);
    StartsWithStar(doc);
    ClosesExactlyWhen(doc);
    if p.Bold? {
      BoldAfterStar(p.text, rest);
    } else {
      NoEarlyPair(p.text, rest);
      if BoldEnd("*" + r).Some? {
        MatchIsPair(r, BoldEnd("*" + r).value);
      }
      if j: nat :| PairAt(r, j) {
        MatchIsPair(r, j + 1);
      }
    }
  }

  lemma BoldAfterStar(t: string, b: string)
    requires OneLine(t)
    ensures BoldEnd("*" + ("**" + t + "**" + b)).Some?
  {
    var s := "*" + ("**" + t + "**" + b);
    assert s[2..|t| + 3] == "*" + t;
    assert BoldMatch(s, |t| + 3);
  }

  lemma NoEarlyPair(t: string, b: string)
    requires t != "" && '*' !in t
    ensures forall j: nat :: PairAt("*" + t + "*" + b, j) ==> j >= 2
  {
    var s := "*" + t + "*" + b;
    assert s[1] == t[0];
  }

  /** Unless the document is torn at its head, the bold pass treats the first span as it should. */
  lemma BoldsHead(doc: seq<Span>)
    requires SpansOk(doc) && doc != [] && !TornAtHead(doc)
    ensures Bolds(Render(doc, Linked)) == Marked(doc[0]) + Bolds(Render(doc[1..], Linked))
  {
    hide Bolds, Closes, SpanOk;
    var p, rest := doc[0], Render(doc[1..], Linked);
    TextOk(p);
    match p
    case Plain(t) => BoldsSkips(t, rest);
    case Link(_, _) => BoldsSkips(Linked(p), rest);
    case Bold(t) =>
      BoldsRewrites(t, rest);
    case Italic(t) =>
      BoldsOfItalic(t, rest);
      BoldsSkipsClosing(doc[1..]);
      assert "*" + t + ("*" + Bolds(rest)) == "*" + t + "*" + Bolds(rest);
  }

  lemma BoldsOfItalic(t: string, b: string)
    requires t != "" && '*' !in t
    ensures Bolds("*" + t + "*" + b) == "*" + t + Bolds("*" + b)
  {
    hide Bolds;
    assert "*" + t + "*" + b == "*" + (t + ("*" + b));
    BoldsSkipsStar(t + ("*" + b));
    BoldsSkips(t, "*" + b);
  }

  lemma BoldsSkipsClosing(doc: seq<Span>)
    requires SpansOk(doc) && !(doc != [] && IsEmphasis(doc[0]) && Closes(doc))
    ensures Bolds("*" + Render(doc, Linked)) == "*" + Bolds(Render(doc, Linked))
  {
    hide BoldEnd, Closes, SpanOk;
    var r := Render(doc, Linked);
    StartsWithStar(doc);
    if doc != [] && IsEmphasis(doc[0]) {
      ClosingOpensExactlyWhen(doc);
      assert ("*" + r)[1..] == r;
    } else {
      BoldsSkipsStar(r);
    }
  }

  /** A document that is torn at its head leaves the bold pass with a fence inside the italic span. */
  lemma BoldsTornHead(doc: seq<Span>) returns (rest: string)
    requires SpansOk(doc) && TornAtHead(doc)
    ensures Bolds(Render(doc, Linked)) == "*" + doc[0].text + [MARK] + rest
  {
    hide BoldEnd, Closes, SpanOk, Bolds, OneLine;
    var t, r := doc[0].text, Render(doc[1..], Linked);
    TextOk(doc[0]);
    ClosingOpensExactlyWhen(doc[1..]);
    BoldsOfItalic(t, r);
    var s, j := "*" + r, BoldEnd("*" + r).value;
    BoldsFound(s, j);
    rest := s[2..j] + [MARK] + Bolds(s[j + 2..]);
    assert Fenced(s[2..j]) + Bolds(s[j + 2..]) == [MARK] + rest;
    assert "*" + t + ([MARK] + rest) == "*" + t + [MARK] + rest;
  }

  lemma {:induction false} BoldPass(doc: seq<Span>)
    requires SpansOk(doc) && !Torn(doc)
    ensures Bolds(Render(doc, Linked)) == Render(doc, Marked)
    decreases |doc|
  {
    hide TornAtHead, SpanOk;
    if doc != [] {
      BoldPass(doc[1..]);
      BoldsHead(doc);
    }
  }

  lemma {:induction false} ItalicsSkips(a: string, b: string)
    requires '*' !in a
    ensures Italics(a + b) == a + Italics(b)
  {
    if a == "" {
      assert a + b == b;
    } else {
      assert (a + b)[1..] == a[1..] + b;
      ItalicsSkips(a[1..], b);
    }
  }

  lemma ItalicsRewrites(t: string, b: string)
    requires t != "" && '*' !in t && OneLine(t)
    ensures Italics("*" + t + "*" + b) == "_" + t + "_" + Italics(b)
  {
    var s := "*" + t + "*" + b;
    var j := |t| + 1;
    assert s[1..j] == t && s[j + 1..] == b;
    assert ItalicMatch(s, j);
    forall i: nat | i < j
      ensures !ItalicMatch(s, i)
    {
      if 2 <= i {
        assert s[i] == t[i - 1];
      }
    }
    assert ItalicEnd(s) == Some(j);
  }

  lemma ItalicsHead(p: Span, b: string)
    requires SpanOk(p)
    ensures Italics(Marked(p) + b) == Slanted(p) + Italics(b)
  {
    if p.Italic? {
      ItalicsRewrites(p.text, b);
    } else {
      ItalicsSkips(Marked(p), b);
    }
  }

  lemma {:induction false} ItalicPass(doc: seq<Span>)
    requires SpansOk(doc)
    ensures Italics(Render(doc, Marked)) == Render(doc, Slanted)
    decreases |doc|
  {
    hide Marked, Slanted;
    if doc != [] {
      ItalicPass(doc[1..]);
      ItalicsHead(doc[0], Render(doc[1..], Marked));
    }
  }

  lemma UnmarkAppend(a: string, b: string)
    ensures Unmark(a + b) == Unmark(a) + Unmark(b)
  {
  }

  lemma UnmarkSpan(p: Span)
    requires SpanOk(p)
    ensures Unmark(Slanted(p)) == Mrkdwn(p)
  {
    assert Unmark(p.text) == p.text;
    if p.Link? {
      assert Unmark(p.url) == p.url;
    }
  }

  lemma {:induction false} RemoveNothing(s: string, cs: set<char>)
    requires forall c :: c in cs ==> c !in s
    ensures Remove(s, cs) == s
  {
    if s != "" {
      RemoveNothing(s[1..], cs);
    }
  }

  lemma {:induction false} NoMarkInCommonMark(doc: seq<Span>)
    requires SpansOk(doc)
    ensures MARK !in Render(doc, CommonMark)
    decreases |doc|
  {
    if doc != [] {
      NoMarkInCommonMark(doc[1..]);
      assert MARK !in CommonMark(doc[0]);
    }
  }

  /** What the passes after the link pass make of a document. */
  function Emphasised(doc: seq<Span>): string {
    Unmark(Italics(Bolds(Render(doc, Linked))))
  }

  lemma ConverterIsEmphasised(doc: seq<Span>)
    requires SpansOk(doc)
    ensures MarkdownToSlackMrkdwn(Render(doc, CommonMark)) == Emphasised(doc)
  {
    NoMarkInCommonMark(doc);
    RemoveNothing(Render(doc, CommonMark), {MARK});
    LinkPass(doc);
  }

  lemma EmphasisedHead(doc: seq<Span>)
    requires SpansOk(doc) && doc != [] && !TornAtHead(doc)
    ensures Emphasised(doc) == Mrkdwn(doc[0]) + Emphasised(doc[1..])
  {
    hide Bolds, Italics, TornAtHead, SpanOk, Marked, Slanted, Mrkdwn;
    var b := Bolds(Render(doc[1..], Linked));
    BoldsHead(doc);
    ItalicsHead(doc[0], b);
    UnmarkSpan(doc[0]);
    UnmarkAppend(Slanted(doc[0]), Italics(b));
  }

  /** The fence shows up as an asterisk where the italic span should end with an underscore. */
  lemma TornHeadDiffers(doc: seq<Span>)
    requires SpansOk(doc) && TornAtHead(doc)
    ensures Emphasised(doc) != Render(doc, Mrkdwn)
  {
    hide Bolds, Italics, SpanOk, Closes;
    var t := doc[0].text;
    TextOk(doc[0]);
    var rest := BoldsTornHead(doc);
    MarkStays(t, rest);
    assert Emphasised(doc)[|t| + 1] == '*';
    assert Render(doc, Mrkdwn) == "_" + t + "_" + Render(doc[1..], Mrkdwn);
    assert Render(doc, Mrkdwn)[|t| + 1] == '_';
  }

  lemma MarkStays(t: string, b: string)
    requires '*' !in t
    ensures var out := Italics("*" + t + [MARK] + b); |out| > |t| + 1 && out[|t| + 1] == MARK
  {
    hide ItalicEnd, Italics;
    var s := "*" + t + [MARK] + b;
    assert s[1..] == (t + [MARK]) + b;
    if ItalicEnd(s).Some? {
      assert ItalicEnd(s).value > |t| + 1;
      ItalicsFound(s, ItalicEnd(s).value);
    } else {
      ItalicsMissed(s);
      ItalicsSkips(t + [MARK], b);
    }
  }

  lemma ItalicsFound(s: string, j: nat)
    requires ItalicEnd(s) == Some(j) && 2 <= j < |s|
    ensures Italics(s) == Underscored(s[1..j]) + Italics(s[j + 1..])
  {
    hide ItalicEnd, ItalicMatch, Underscored;
  }

  lemma ItalicsMissed(s: string)
    requires s != "" && ItalicEnd(s).None?
    ensures Italics(s) == [s[0]] + Italics(s[1..])
  {
    hide ItalicEnd, ItalicMatch;
  }

  lemma SamePrefix(a: string, b: string, c: string)
    ensures a + b == a + c <==> b == c
  {
    if a + b == a + c {
      assert b == (a + b)[|a|..] && c == (a + c)[|a|..];
    }
  }

  /**
   The converter as a translation, for every document of well-formed spans in whatever order: converting
   the CommonMark rendering gives exactly the Slack rendering if and only if the document is nowhere torn.
   */
  lemma {:induction false} TranslatesExactlyWhen(doc: seq<Span>)
    requires SpansOk(doc)
    ensures MarkdownToSlackMrkdwn(Render(doc, CommonMark)) == Render(doc, Mrkdwn) <==> !Torn(doc)
    decreases |doc|
  {
    hide MarkdownToSlackMrkdwn, Emphasised, TornAtHead, SpanOk, Mrkdwn;
    ConverterIsEmphasised(doc);
    if doc == [] {
      EmphasisedNothing();
    } else if TornAtHead(doc) {
      TornHeadDiffers(doc);
    } else {
      TranslatesExactlyWhen(doc[1..]);
      ConverterIsEmphasised(doc[1..]);
      EmphasisedHead(doc);
      SamePrefix(Mrkdwn(doc[0]), Emphasised(doc[1..]), Render(doc[1..], Mrkdwn));
    }
  }

  lemma EmphasisedNothing()
    ensures Emphasised([]) == ""
  {
  }

  lemma {:induction false} SeparatedIsWhole(doc: seq<Span>)
    requires Separated(doc)
    ensures !Torn(doc)
    decreases |doc|
  {
    if doc != [] {
      SeparatedIsWhole(doc[1..]);
    }
  }

  /** In particular it is a correct translation wherever italic text is kept apart from other emphasis. */
  lemma ConverterTranslates(doc: seq<Span>)
    requires DocOk(doc)
    ensures MarkdownToSlackMrkdwn(Render(doc, CommonMark)) == Render(doc, Mrkdwn)
  {
    TranslatesExactlyWhen(doc);
    SeparatedIsWhole(doc);
  }

  /** Of two touching spans, every pair translates but italic before bold. */
  lemma PairsTranslateExactlyWhen(p: Span, q: Span)
    requires SpanOk(p) && SpanOk(q)
    ensures MarkdownToSlackMrkdwn(CommonMark(p) + CommonMark(q)) == Mrkdwn(p) + Mrkdwn(q) <==> !(p.Italic? && q.Bold?)
  {
    hide MarkdownToSlackMrkdwn, SpanOk;
    TranslatesExactlyWhen([p, q]);
    RenderPair(p, q, CommonMark);
    RenderPair(p, q, Mrkdwn);
    assert [p, q][1..] == [q] && [q][1..] == [];
    assert q.Italic? ==> !Closes([q]);
    assert !Torn([q]);
  }

  lemma UnmarkNothing(s: string)
    requires MARK !in s
    ensures Unmark(s) == s
  {
  }

  lemma RenderPair(p: Span, q: Span, f: Span -> string)
    ensures Render([p, q], f) == f(p) + f(q)
  {
    assert [p, q][1..] == [q] && [q][1..] == [];
    assert Render([q], f) == f(q) + "";
  }

  // ---------------------------------------------------------------- nothing is lost

  const MARKUP: set<char> := {'*', '_', MARK}

  lemma {:induction false} RemoveAppend(a: string, b: string, cs: set<char>)
    ensures Remove(a + b, cs) == Remove(a, cs) + Remove(b, cs)
  {
    if a == "" {
      assert a + b == b;
    } else {
      assert (a + b)[1..] == a[1..] + b;
      RemoveAppend(a[1..], b, cs);
    }
  }

  /** A rewrite that only swaps delimiters of markup keeps the text. */
  lemma RemoveDelimited(open: string, t: string, close: string)
    requires forall c :: c in open || c in close ==> c in MARKUP
    ensures Remove(open + t + close, MARKUP) == Remove(t, MARKUP)
  {
    RemoveAll(open);
    RemoveAll(close);
    RemoveAppend(open + t, close, MARKUP);
    RemoveAppend(open, t, MARKUP);
  }

  lemma {:induction false} RemoveAll(s: string)
    requires forall c :: c in s ==> c in MARKUP
    ensures Remove(s, MARKUP) == ""
  {
    if s != "" {
      RemoveAll(s[1..]);
    }
  }

  lemma {:induction false} BoldsKeepsText(s: string)
    ensures Remove(Bolds(s), MARKUP) == Remove(s, MARKUP)
    decreases |s|
  {
    if s == "" {
    } else if BoldEnd(s).Some? {
      var j := BoldEnd(s).value;
      BoldsKeepsText(s[j + 2..]);
      RemoveDelimited([MARK], s[2..j], [MARK]);
      RemoveDelimited("**", s[2..j], "**");
      RemoveAppend([MARK] + s[2..j] + [MARK], Bolds(s[j + 2..]), MARKUP);
      RemoveAppend("**" + s[2..j] + "**", s[j + 2..], MARKUP);
      assert s == "**" + s[2..j] + "**" + s[j + 2..];
    } else {
      BoldsKeepsText(s[1..]);
      assert ([s[0]] + Bolds(s[1..]))[1..] == Bolds(s[1..]);
    }
  }

  lemma {:induction false} ItalicsKeepsText(s: string)
    ensures Remove(Italics(s), MARKUP) == Remove(s, MARKUP)
    decreases |s|
  {
    if s == "" {
    } else if ItalicEnd(s).Some? {
      var j := ItalicEnd(s).value;
      ItalicsKeepsText(s[j + 1..]);
      RemoveDelimited("_", s[1..j], "_");
      RemoveDelimited("*", s[1..j], "*");
      RemoveAppend("_" + s[1..j] + "_", Italics(s[j + 1..]), MARKUP);
      RemoveAppend("*" + s[1..j] + "*", s[j + 1..], MARKUP);
      assert s == "*" + s[1..j] + "*" + s[j + 1..];
    } else {
      ItalicsKeepsText(s[1..]);
      assert ([s[0]] + Italics(s[1..]))[1..] == Italics(s[1..]);
    }
  }

  lemma {:induction false} UnmarkKeepsText(s: string)
    ensures Remove(Unmark(s), MARKUP) == Remove(s, MARKUP)
  {
    if s != "" {
      UnmarkKeepsText(s[1..]);
      assert Unmark(s)[1..] == Unmark(s[1..]);
    }
  }

  lemma {:induction false} StripKeepsText(s: string)
    ensures Remove(Remove(s, {MARK}), MARKUP) == Remove(s, MARKUP)
  {
    if s != "" {
      StripKeepsText(s[1..]);
      RemoveAppend(if s[0] == MARK then "" else [s[0]], Remove(s[1..], {MARK}), MARKUP);
    }
  }

  /** No link begins anywhere in `s`. */
  predicate Linkless(s: string) {
    forall i :: 0 <= i <= |s| ==> TextEnd(s[i..]).None?
  }

  lemma {:induction false} LinksOfLinkless(s: string)
    requires Linkless(s)
    ensures Links(s) == s
  {
    if s != "" {
      assert s[0..] == s;
      forall i | 0 <= i <= |s[1..]|
        ensures TextEnd(s[1..][i..]).None?
      {
        assert s[1..][i..] == s[i + 1..];
      }
      LinksOfLinkless(s[1..]);
    }
  }

  /**
   For every input whatever, the bold and italic rewriting loses, duplicates and reorders nothing: apart
   from markup characters the output is what the link pass alone produces, and where no link matches it
   is the input itself.
   */
  lemma ConverterKeepsText(s: string)
    ensures Remove(MarkdownToSlackMrkdwn(s), MARKUP) == Remove(Links(Remove(s, {MARK})), MARKUP)
    ensures Linkless(Remove(s, {MARK})) ==> Remove(MarkdownToSlackMrkdwn(s), MARKUP) == Remove(s, MARKUP)
  {
    var t := Links(Remove(s, {MARK}));
    BoldsKeepsText(t);
    ItalicsKeepsText(Bolds(t));
    UnmarkKeepsText(Italics(Bolds(t)));
    StripKeepsText(s);
    if Linkless(Remove(s, {MARK})) {
      LinksOfLinkless(Remove(s, {MARK}));
    }
  }

  // ---------------------------------------------------------------- what passes through

  /** Two asterisks around a non-empty text of one line. */
  predicate EmphasisAt(s: string, i: nat, j: nat) {
    i + 2 <= j < |s| && s[i] == '*' && s[j] == '*' && '\n' !in s[i + 1..j]
  }

  ghost predicate HasEmphasis(s: string) {
    exists i: nat, j: nat :: EmphasisAt(s, i, j)
  }

  /** A bracketed non-empty text of one line and, at once, a parenthesised URL free of white space. */
  predicate LinkAt(s: string, i: nat, j: nat, k: nat) {
    i + 2 <= j && j + 3 <= k < |s|
    && s[i] == '[' && s[j] == ']' && s[j + 1] == '(' && s[k] == ')'
    && '\n' !in s[i + 1..j] && SpaceFree(s[j + 2..k])
  }

  ghost predicate HasLink(s: string) {
    exists i: nat, j: nat, k: nat :: LinkAt(s, i, j, k)
  }

  lemma LinkAtIsMatch(s: string, i: nat, j: nat, k: nat)
    requires i <= |s|
    ensures LinkAt(s, i, i + j, i + k) <==> LinkMatch(s[i..], j, k)
  {
    if 2 <= j && j + 3 <= k < |s[i..]| {
      assert s[i..][1..j] == s[i + 1..i + j] && s[i..][j + 2..k] == s[i + j + 2..i + k];
    }
  }

  lemma LinklessExactlyWhen(s: string)
    ensures Linkless(s) <==> !HasLink(s)
  {
    if HasLink(s) {
      var i: nat, j: nat, k: nat :| LinkAt(s, i, j, k);
      LinkAtIsMatch(s, i, j - i, k - i);
      hide *;
      assert TextEnd(s[i..]).Some?;
    }
    if !Linkless(s) {
      var i :| 0 <= i <= |s| && TextEnd(s[i..]).Some?;
      var j := TextEnd(s[i..]).value;
      LinkAtIsMatch(s, i, j, UrlEnd(s[i..], j).value);
    }
  }

  /** Every pass keeps or shortens the text, and one that keeps the length has rewritten nothing but italics. */
  lemma {:induction false} StripShortens(s: string)
    ensures |Remove(s, {MARK})| <= |s|
    ensures MARK in s ==> |Remove(s, {MARK})| < |s|
  {
    if s != "" {
      StripShortens(s[1..]);
    }
  }

  lemma {:induction false} LinksShortens(s: string)
    ensures |Links(s)| <= |s|
    ensures !Linkless(s) ==> |Links(s)| < |s|
    decreases |s|
  {
    hide TextEnd, UrlEnd;
    if s == "" {
    } else if TextEnd(s).Some? {
      LinksShortens(s[UrlEnd(s, TextEnd(s).value).value + 1..]);
    } else {
      LinksShortens(s[1..]);
      if !Linkless(s) {
        var i :| 0 <= i <= |s| && TextEnd(s[i..]).Some?;
        assert s[0..] == s;
        assert s[1..][i - 1..] == s[i..];
      }
    }
  }

  lemma {:induction false} BoldsShortens(s: string)
    ensures |Bolds(s)| <= |s|
    ensures |Bolds(s)| == |s| ==> Bolds(s) == s
    decreases |s|
  {
    hide BoldEnd;
    if s == "" {
    } else if BoldEnd(s).Some? {
      BoldsShortens(s[BoldEnd(s).value + 2..]);
    } else {
      BoldsShortens(s[1..]);
    }
  }

  lemma EmphasisAtShifts(s: string, i: nat, j: nat)
    requires s != ""
    ensures EmphasisAt(s, i + 1, j + 1) <==> EmphasisAt(s[1..], i, j)
  {
    if i + 2 <= j < |s[1..]| {
      assert s[1..][i + 1..j] == s[i + 2..j + 1];
    }
  }

  /** The italic pattern matches at the start, or the emphasis is further on. */
  lemma EmphasisBegins(s: string)
    requires s != ""
    ensures HasEmphasis(s) <==> ItalicEnd(s).Some? || HasEmphasis(s[1..])
  {
    hide ItalicEnd;
    if HasEmphasis(s) {
      var i: nat, j: nat :| EmphasisAt(s, i, j);
      if i == 0 {
        assert ItalicMatch(s, j);
      } else {
        EmphasisAtShifts(s, i - 1, j - 1);
      }
    }
    if ItalicEnd(s).Some? {
      assert EmphasisAt(s, 0, ItalicEnd(s).value);
    }
    if HasEmphasis(s[1..]) {
      var i: nat, j: nat :| EmphasisAt(s[1..], i, j);
      EmphasisAtShifts(s, i, j);
    }
  }

  lemma {:induction false} ItalicsUnchangedExactlyWhen(s: string)
    ensures Italics(s) == s <==> !HasEmphasis(s)
  {
    if s != "" {
      EmphasisBegins(s);
      ItalicsUnchangedExactlyWhen(s[1..]);
      hide ItalicEnd, HasEmphasis, OneLine;
      if ItalicEnd(s).Some? {
        assert s[0] == '*' && Italics(s)[0] == '_';
      } else {
        assert Italics(s)[1..] == Italics(s[1..]);
      }
    }
  }

  /** Two pairs of asterisks around a non-empty text of one line. */
  predicate BoldAt(s: string, i: nat, j: nat) {
    i + 3 <= j < |s| - 1 && s[i] == s[i + 1] == '*' && s[j] == s[j + 1] == '*' && '\n' !in s[i + 2..j]
  }

  ghost predicate HasBold(s: string) {
    exists i: nat, j: nat :: BoldAt(s, i, j)
  }

  lemma BoldAtShifts(s: string, i: nat, j: nat)
    requires s != ""
    ensures BoldAt(s, i + 1, j + 1) <==> BoldAt(s[1..], i, j)
  {
    if i + 3 <= j < |s[1..]| - 1 {
      assert s[1..][i + 2..j] == s[i + 3..j + 1];
    }
  }

  /** The bold pattern matches at the start, or the bold text is further on. */
  lemma BoldBegins(s: string)
    requires s != ""
    ensures HasBold(s) <==> BoldEnd(s).Some? || HasBold(s[1..])
  {
    hide BoldEnd;
    if HasBold(s) {
      var i: nat, j: nat :| BoldAt(s, i, j);
      if i == 0 {
        assert BoldMatch(s, j);
      } else {
        BoldAtShifts(s, i - 1, j - 1);
      }
    }
    if BoldEnd(s).Some? {
      assert BoldAt(s, 0, BoldEnd(s).value);
    }
    if HasBold(s[1..]) {
      var i: nat, j: nat :| BoldAt(s[1..], i, j);
      BoldAtShifts(s, i, j);
    }
  }

  lemma {:induction false} BoldsUnchangedExactlyWhen(s: string)
    ensures Bolds(s) == s <==> !HasBold(s)
  {
    if s != "" {
      BoldBegins(s);
      BoldsUnchangedExactlyWhen(s[1..]);
      hide BoldEnd, HasBold, OneLine;
      if BoldEnd(s).Some? {
        BoldsShortens(s[BoldEnd(s).value + 2..]);
      } else {
        assert Bolds(s)[1..] == Bolds(s[1..]);
      }
    }
  }

  lemma BoldIsEmphasis(s: string)
    requires HasBold(s)
    ensures HasEmphasis(s)
  {
    var i: nat, j: nat :| BoldAt(s, i, j);
    assert s[i + 1..j] == ['*'] + s[i + 2..j];
    assert EmphasisAt(s, i, j);
  }

  /**
   Unrecognised syntax passes through unchanged, and nothing else does: for every input whatever, the
   output is the input exactly when it holds no sentinel, no link and no emphasis.
   */
  lemma UnchangedExactlyWhen(s: string)
    ensures MarkdownToSlackMrkdwn(s) == s <==> MARK !in s && !HasLink(s) && !HasEmphasis(s)
  {
    hide Links, Bolds, Italics, Remove, HasLink, HasBold, HasEmphasis, Linkless;
    var t := Remove(s, {MARK});
    StripShortens(s);
    LinksShortens(t);
    BoldsShortens(Links(t));
    LinklessExactlyWhen(s);
    ItalicsUnchangedExactlyWhen(s);
    ItalicsKeepsLength(Bolds(Links(t)));
    if MARK !in s {
      RemoveNothing(s, {MARK});
      if Linkless(s) {
        LinksOfLinkless(s);
        BoldsUnchangedExactlyWhen(s);
        if HasBold(s) {
          BoldIsEmphasis(s);
        }
        ItalicsAddNoMark(s);
        UnmarkNothing(Italics(s));
      }
    }
  }

  lemma {:induction false} ItalicsAddNoMark(s: string)
    requires MARK !in s
    ensures MARK !in Italics(s)
    decreases |s|
  {
    hide ItalicEnd;
    if s == "" {
    } else if ItalicEnd(s).Some? {
      ItalicsAddNoMark(s[ItalicEnd(s).value + 1..]);
    } else {
      ItalicsAddNoMark(s[1..]);
    }
  }

  lemma {:induction false} ItalicsKeepsLength(s: string)
    ensures |Italics(s)| == |s|
    decreases |s|
  {
    hide ItalicEnd;
    if s == "" {
    } else if ItalicEnd(s).Some? {
      ItalicsKeepsLength(s[ItalicEnd(s).value + 1..]);
    } else {
      ItalicsKeepsLength(s[1..]);
    }
  }

  // ---------------------------------------------------------------- the sentinel

  /** The sentinel is the converter's own affair: a text's own are dropped, and none is left in the result. */
  lemma SentinelNeverShows(s: string)
    ensures MARK !in MarkdownToSlackMrkdwn(s)
    ensures MarkdownToSlackMrkdwn(s) == MarkdownToSlackMrkdwn(Remove(s, {MARK}))
  {
    hide Links, Bolds, Italics;
    RemoveRemoves(s, {MARK});
    RemoveNothing(Remove(s, {MARK}), {MARK});
  }

  lemma {:induction false} RemoveRemoves(s: string, cs: set<char>)
    ensures forall c :: c in cs ==> c !in Remove(s, cs)
  {
    if s != "" {
      RemoveRemoves(s[1..], cs);
    }
  }

  // ---------------------------------------------------------------- line by line

  /** No match begins in one line and ends in another. */
  lemma MatchesStayInLine(a: string, b: string)
    requires a != ""
    ensures forall j: nat, k: nat :: LinkMatch(a + "\n" + b, j, k) <==> LinkMatch(a, j, k)
    ensures forall j: nat :: BoldMatch(a + "\n" + b, j) <==> BoldMatch(a, j)
    ensures forall j: nat :: ItalicMatch(a + "\n" + b, j) <==> ItalicMatch(a, j)
  {
    forall j: nat, k: nat
      ensures LinkMatch(a + "\n" + b, j, k) <==> LinkMatch(a, j, k)
    {
      LinkStaysInLine(a, b, j, k);
    }
    forall j: nat
      ensures BoldMatch(a + "\n" + b, j) <==> BoldMatch(a, j)
      ensures ItalicMatch(a + "\n" + b, j) <==> ItalicMatch(a, j)
    {
      EmphasisStaysInLine(a, b, j);
    }
  }

  lemma NewlineInside(a: string, b: string, i: nat, j: nat)
    requires i <= |a| < j <= |a + "\n" + b|
    ensures '\n' in (a + "\n" + b)[i..j]
  {
    assert (a + "\n" + b)[i..j][|a| - i] == '\n';
  }

  lemma LinkStaysInLine(a: string, b: string, j: nat, k: nat)
    requires a != ""
    ensures LinkMatch(a + "\n" + b, j, k) <==> LinkMatch(a, j, k)
  {
    var s := a + "\n" + b;
    if k < |a| {
      if 2 <= j && j + 3 <= k {
        assert s[1..j] == a[1..j] && s[j + 2..k] == a[j + 2..k];
      }
    } else if LinkMatch(s, j, k) {
      if |a| < j {
        NewlineInside(a, b, 1, j);
      } else {
        assert s[|a|] == '\n';
        NewlineInside(a, b, j + 2, k);
      }
    }
  }

  lemma EmphasisStaysInLine(a: string, b: string, j: nat)
    requires a != ""
    ensures BoldMatch(a + "\n" + b, j) <==> BoldMatch(a, j)
    ensures ItalicMatch(a + "\n" + b, j) <==> ItalicMatch(a, j)
  {
    var s := a + "\n" + b;
    assert s[|a|] == '\n';
    if j < |a| {
      assert 1 <= j ==> s[1..j] == a[1..j];
      assert 2 <= j ==> s[2..j] == a[2..j];
    } else if |a| < j < |s| {
      NewlineInside(a, b, 1, j);
      if 2 <= |a| {
        NewlineInside(a, b, 2, j);
      }
    }
  }

  lemma SplitNewline(a: string, b: string, i: nat)
    requires i <= |a|
    ensures (a + "\n" + b)[i..] == a[i..] + "\n" + b
  {
  }

  lemma EndsStayInLine(a: string, b: string)
    requires a != ""
    ensures TextEnd(a + "\n" + b) == TextEnd(a)
    ensures TextEnd(a).Some? ==> UrlEnd(a + "\n" + b, TextEnd(a).value) == UrlEnd(a, TextEnd(a).value)
    ensures BoldEnd(a + "\n" + b) == BoldEnd(a) && ItalicEnd(a + "\n" + b) == ItalicEnd(a)
  {
    MatchesStayInLine(a, b);
    hide TextEnd, UrlEnd, BoldEnd, ItalicEnd, LinkMatch, BoldMatch, ItalicMatch;
  }

  lemma LinksFound(s: string, j: nat, k: nat)
    requires TextEnd(s) == Some(j) && UrlEnd(s, j) == Some(k) && 2 <= j && j + 3 <= k < |s|
    ensures Links(s) == Angled(s[j + 2..k], s[1..j]) + Links(s[k + 1..])
  {
    hide TextEnd, UrlEnd, LinkMatch, Angled;
  }

  lemma LinksMissed(s: string)
    requires s != "" && TextEnd(s).None?
    ensures Links(s) == [s[0]] + Links(s[1..])
  {
    hide TextEnd, LinkMatch;
  }

  /** One step of a pass on the first line of a text is the same step on that line alone. */
  lemma LinksStep(a: string, b: string) returns (head: string, rest: string)
    requires a != ""
    ensures |rest| < |a| && Links(a) == head + Links(rest)
    ensures Links(a + "\n" + b) == head + Links(rest + "\n" + b)
  {
    hide LinkMatch, TextEnd, UrlEnd, Links, Angled;
    var s := a + "\n" + b;
    EndsStayInLine(a, b);
    if TextEnd(a).Some? {
      var j := TextEnd(a).value;
      var k := UrlEnd(a, j).value;
      InLine(a, j, k);
      SplitNewline(a, b, k + 1);
      LinksFound(a, j, k);
      LinksFound(s, j, k);
      assert s[j + 2..k] == a[j + 2..k] && s[1..j] == a[1..j];
      head, rest := Angled(a[j + 2..k], a[1..j]), a[k + 1..];
    } else {
      LinksMissed(a);
      LinksMissed(s);
      SplitNewline(a, b, 1);
      head, rest := [a[0]], a[1..];
    }
  }

  lemma Glue(head: string, mid: string, tail: string)
    ensures head + (mid + "\n" + tail) == (head + mid) + "\n" + tail
  {
  }

  lemma InLine(a: string, j: nat, k: nat)
    requires LinkMatch(a, j, k)
    ensures 2 <= j && j + 3 <= k < |a|
  {
  }

  lemma {:induction false} LinksByLine(a: string, b: string)
    ensures Links(a + "\n" + b) == Links(a) + "\n" + Links(b)
    decreases |a|
  {
    if a == "" {
      LinksSkips("\n", b);
      assert a + "\n" + b == "\n" + b;
    } else {
      hide Links;
      var head, rest := LinksStep(a, b);
      LinksByLine(rest, b);
      Glue(head, Links(rest), Links(b));
    }
  }

  lemma BoldsFound(s: string, j: nat)
    requires BoldEnd(s) == Some(j) && 3 <= j && j + 2 <= |s|
    ensures Bolds(s) == Fenced(s[2..j]) + Bolds(s[j + 2..])
  {
    hide BoldEnd, BoldMatch, Fenced;
  }

  lemma BoldsMissed(s: string)
    requires s != "" && BoldEnd(s).None?
    ensures Bolds(s) == [s[0]] + Bolds(s[1..])
  {
    hide BoldEnd, BoldMatch;
  }

  lemma BoldsStep(a: string, b: string) returns (head: string, rest: string)
    requires a != ""
    ensures |rest| < |a| && Bolds(a) == head + Bolds(rest)
    ensures Bolds(a + "\n" + b) == head + Bolds(rest + "\n" + b)
  {
    hide BoldEnd, Bolds, OneLine;
    var s := a + "\n" + b;
    EndsStayInLine(a, b);
    if BoldEnd(a).Some? {
      var j := BoldEnd(a).value;
      BoldsFound(a, j);
      BoldsFound(s, j);
      SplitNewline(a, b, j + 2);
      assert s[2..j] == a[2..j];
      head, rest := Fenced(a[2..j]), a[j + 2..];
    } else {
      BoldsMissed(a);
      BoldsMissed(s);
      SplitNewline(a, b, 1);
      head, rest := [a[0]], a[1..];
    }
  }

  lemma {:induction false} BoldsByLine(a: string, b: string)
    ensures Bolds(a + "\n" + b) == Bolds(a) + "\n" + Bolds(b)
    decreases |a|
  {
    if a == "" {
      BoldsSkips("\n", b);
      assert a + "\n" + b == "\n" + b;
    } else {
      hide Bolds;
      var head, rest := BoldsStep(a, b);
      BoldsByLine(rest, b);
      Glue(head, Bolds(rest), Bolds(b));
    }
  }

  lemma ItalicsStep(a: string, b: string) returns (head: string, rest: string)
    requires a != ""
    ensures |rest| < |a| && Italics(a) == head + Italics(rest)
    ensures Italics(a + "\n" + b) == head + Italics(rest + "\n" + b)
  {
    hide ItalicEnd, Italics, OneLine;
    var s := a + "\n" + b;
    EndsStayInLine(a, b);
    if ItalicEnd(a).Some? {
      var j := ItalicEnd(a).value;
      ItalicsFound(a, j);
      ItalicsFound(s, j);
      SplitNewline(a, b, j + 1);
      assert s[1..j] == a[1..j];
      head, rest := Underscored(a[1..j]), a[j + 1..];
    } else {
      ItalicsMissed(a);
      ItalicsMissed(s);
      SplitNewline(a, b, 1);
      head, rest := [a[0]], a[1..];
    }
  }

  lemma {:induction false} ItalicsByLine(a: string, b: string)
    ensures Italics(a + "\n" + b) == Italics(a) + "\n" + Italics(b)
    decreases |a|
  {
    if a == "" {
      ItalicsSkips("\n", b);
      assert a + "\n" + b == "\n" + b;
    } else {
      hide Italics;
      var head, rest := ItalicsStep(a, b);
      ItalicsByLine(rest, b);
      Glue(head, Italics(rest), Italics(b));
    }
  }

  /** The converter works line by line: every text whatever is converted as its lines are. */
  lemma ConvertsByLine(a: string, b: string)
    ensures MarkdownToSlackMrkdwn(a + "\n" + b) == MarkdownToSlackMrkdwn(a) + "\n" + MarkdownToSlackMrkdwn(b)
  {
    hide Links, Bolds, Italics, Unmark;
    var a0, b0 := Remove(a, {MARK}), Remove(b, {MARK});
    RemoveAppend(a + "\n", b, {MARK});
    RemoveAppend(a, "\n", {MARK});
    RemoveNothing("\n", {MARK});
    LinksByLine(a0, b0);
    BoldsByLine(Links(a0), Links(b0));
    ItalicsByLine(Bolds(Links(a0)), Bolds(Links(b0)));
    var a3, b3 := Italics(Bolds(Links(a0))), Italics(Bolds(Links(b0)));
    UnmarkAppend(a3 + "\n", b3);
    UnmarkAppend(a3, "\n");
    UnmarkNothing("\n");
  }

  // ---------------------------------------------------------------- the message

  function BuildSlackMessage(subject: string, body: string, mode: string): string {
    var text := if mode == "markdown" then MarkdownToSlackMrkdwn(body) else body;
    if subject == "" then text
    else (if mode == "markdown" then "*" + subject + "*" else subject) + "\n" + text
  }

  /** In any other mode the text is left as it is; without a subject there is no subject line. */
  lemma MessageInOtherModes(subject: string, body: string, mode: string)
    ensures mode != "markdown" && subject != "" ==> BuildSlackMessage(subject, body, mode) == subject + "\n" + body
    ensures mode != "markdown" ==> BuildSlackMessage("", body, mode) == body
    ensures BuildSlackMessage("", body, "markdown") == MarkdownToSlackMrkdwn(body)
  {
  }

  /** A markdown message is the bold subject line above the translated document. */
  lemma MessageOfDocument(subject: string, doc: seq<Span>)
    requires subject != "" && SpansOk(doc) && !Torn(doc)
    ensures BuildSlackMessage(subject, Render(doc, CommonMark), "markdown") ==
            Mrkdwn(Bold(subject)) + "\n" + Render(doc, Mrkdwn)
  {
    TranslatesExactlyWhen(doc);
  }
}
