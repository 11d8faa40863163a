/** What is open at each place of a value's text: its brackets by number, and whether a string. It is told from
    the grammar alone, part by part, and proved to be what reading the characters one by one comes to. A value
    cut where something is open stays open to the end of the text. */
module ValueModes {
  import opened Text
  import opened ConfigString
  import opened ConfigGrammar
  import opened ScanValues

  datatype Mode = Mode(depth: nat, quoted: bool, escaped: bool)

  const IN_BRACKET := Mode(1, false, false)
  const IN_STRING := Mode(0, true, false)

  predicate Within(m: Mode) {
    m.depth >= 1 || m.quoted
  }

  function Step(m: Mode, c: char): Mode {
    if m.quoted then
      if m.escaped then m.(escaped := false)
      else if c == '\\' then m.(escaped := true)
      else if c == '"' then m.(quoted := false)
      else m
    else if c == '"' then m.(quoted := true)
    else if IsOpen(c) then m.(depth := m.depth + 1)
    else if IsClose(c) && m.depth > 0 then m.(depth := m.depth - 1)
    else m
  }

  function Run(m: Mode, s: string): Mode
    decreases |s|
  {
    if s == [] then m else Run(Step(m, s[0]), s[1..])
  }

  /** Something is open before and after each character, and no comment begins. */
  predicate Stays(m: Mode, s: string)
    decreases |s|
  {
    Within(m) && (s != [] ==> (m.quoted || s[0] != ';') && Stays(Step(m, s[0]), s[1..]))
  }

  lemma {:induction false} RunJoins(m: Mode, a: string, b: string)
    ensures Run(m, a + b) == Run(Run(m, a), b)
    ensures Stays(m, a + b) <==> Stays(m, a) && Stays(Run(m, a), b)
    decreases |a|
  {
    if a == [] {
      assert [] + b == b;
      if Stays(m, b) { assert Within(m); }
    } else {
      assert (a + b)[1..] == a[1..] + b;
      RunJoins(Step(m, a[0]), a[1..], b);
    }
  }

  /** What stands before a cut of a text that stays inside stays inside too. */
  lemma StaysBefore(m: Mode, s: string, n: nat)
    requires Stays(m, s) && n <= |s|
    ensures Stays(m, s[..n])
  {
    assert s == s[..n] + s[n..];
    RunJoins(m, s[..n], s[n..]);
  }

  // ----- Texts that leave what is open as it was -----

  function Brackets(depth: nat): Mode {
    Mode(depth, false, false)
  }

  predicate NeutralAt(s: string, depth: nat) {
    Stays(Brackets(depth), s) && Run(Brackets(depth), s) == Brackets(depth)
  }

  ghost predicate Neutral(s: string) {
    forall depth: nat :: depth >= 1 ==> NeutralAt(s, depth)
  }

  lemma NeutralJoins(a: string, b: string)
    requires Neutral(a) && Neutral(b)
    ensures Neutral(a + b)
  {
    forall depth: nat | depth >= 1 ensures NeutralAt(a + b, depth) {
      hide Stays, Run;
      assert NeutralAt(a, depth) && NeutralAt(b, depth);
      RunJoins(Brackets(depth), a, b);
    }
  }

  lemma NeutralNothing()
    ensures Neutral([])
  {
  }

  lemma NeutralChar(c: char)
    requires PassingChar(c)
    ensures Neutral([c])
  {
    forall depth: nat | depth >= 1 ensures NeutralAt([c], depth) {
      assert [c][1..] == [];
    }
  }

  lemma {:induction false} NeutralText(s: string)
    requires forall i :: 0 <= i < |s| ==> PassingChar(s[i])
    ensures Neutral(s)
    decreases |s|
  {
    hide Neutral, PassingChar;
    if s == [] {
      NeutralNothing();
    } else {
      NeutralChar(s[0]);
      NeutralText(s[1..]);
      NeutralJoins([s[0]], s[1..]);
      assert [s[0]] + s[1..] == s;
    }
  }

  lemma NeutralWord(s: string)
    requires BareText(s) || AllSpace(s) || Identifier(s) || s == ['&'] || s == ['@']
    ensures Neutral(s)
  {
    hide BareText, AllSpace, Identifier, PassingChar, Neutral;
    forall i | 0 <= i < |s| ensures PassingChar(s[i]) { WordPasses(s, i); }
    NeutralText(s);
  }

  lemma NeutralBracketed(open: char, s: string, close: char)
    requires IsOpen(open) && IsClose(close) && Neutral(s)
    ensures Neutral([open] + (s + [close]))
  {
    forall depth: nat | depth >= 1 ensures NeutralAt([open] + (s + [close]), depth) {
      assert NeutralAt(s, depth + 1);
      hide Stays, Run;
      RunJoins(Brackets(depth + 1), s, [close]);
      OpensThenCloses(open, s + [close], depth);
      Closes(close, depth);
    }
  }

  lemma OpensThenCloses(open: char, rest: string, depth: nat)
    requires IsOpen(open) && depth >= 1
    ensures Stays(Brackets(depth), [open] + rest) == Stays(Brackets(depth + 1), rest)
    ensures Run(Brackets(depth), [open] + rest) == Run(Brackets(depth + 1), rest)
  {
    assert ([open] + rest)[1..] == rest;
  }

  lemma Closes(close: char, depth: nat)
    requires IsClose(close) && depth >= 1
    ensures Stays(Brackets(depth + 1), [close]) && Run(Brackets(depth + 1), [close]) == Brackets(depth)
  {
    assert [close][1..] == [];
  }

  // ----- Strings -----

  /** In a string a character that is neither a quote nor a backslash changes nothing. */
  lemma {:induction false} StaysQuoted(m: Mode, s: string)
    requires m.quoted && !m.escaped && forall i :: 0 <= i < |s| ==> s[i] != '"' && s[i] != '\\'
    ensures Stays(m, s) && Run(m, s) == m
    decreases |s|
  {
    if s != [] { StaysQuoted(m, s[1..]); }
  }

  lemma TokenStays(m: Mode, q: string, i: nat)
    requires m.quoted && !m.escaped && HasToken(q, i)
    ensures Stays(m, q[i..TokenAt(q, i).1]) && Run(m, q[i..TokenAt(q, i).1]) == m
  {
    var next := TokenAt(q, i).1;
    if q[i] != '\\' {
      StaysQuoted(m, q[i..next]);
    } else {
      var digits := q[i + 2..next];
      StaysQuoted(m, digits);
      assert q[i..next] == [q[i], q[i + 1]] + digits;
      EscapeStays(m, q[i + 1]);
      RunJoins(m, [q[i], q[i + 1]], digits);
    }
  }

  lemma EscapeStays(m: Mode, c: char)
    requires m.quoted && !m.escaped
    ensures Stays(m, ['\\', c]) && Run(m, ['\\', c]) == m
  {
    assert ['\\', c][1..] == [c] && [c][1..] == [];
    var e := Step(m, '\\');
    assert Step(e, c) == m;
    assert Stays(m, []) && Stays(e, [c]);
    assert Run(e, [c]) == m;
  }

  lemma {:induction false} BodyStays(m: Mode, q: string, i: nat)
    requires m.quoted && !m.escaped && i < |q| && TokensFrom(q, i).closed && TokensFrom(q, i).end == |q|
    ensures Stays(m, q[i..|q| - 1]) && Run(m, q[i..|q| - 1]) == m
    decreases |q| - i
  {
    hide Stays, Run, TokenAt;
    if q[i] == '"' {
      assert q[i..|q| - 1] == [];
      StaysQuoted(m, []);
    } else {
      var next := TokenAt(q, i).1;
      assert TokensFrom(q, next).closed && TokensFrom(q, next).end == |q|;
      TokenStays(m, q, i);
      BodyStays(m, q, next);
      RunJoins(m, q[i..next], q[next..|q| - 1]);
      assert q[i..|q| - 1] == q[i..next] + q[next..|q| - 1];
    }
  }

  lemma QuotedStays(m: Mode, body: string)
    requires m.quoted && !m.escaped && StringBody(body)
    ensures Stays(m, body) && Run(m, body) == m
  {
    hide Stays, Run;
    var q := body + ['"'];
    BodyStays(m, q, 0);
    assert q[0..|q| - 1] == body;
  }

  lemma NeutralQuoted(body: string)
    requires StringBody(body)
    ensures Neutral(PrintQuoted(body))
  {
    hide StringBody;
    forall depth: nat | depth >= 1 ensures NeutralAt(PrintQuoted(body), depth) {
      var m := Mode(depth, true, false);
      QuotedStays(m, body);
      RunJoins(m, body, ['"']);
      assert PrintQuoted(body)[1..] == body + ['"'] && ['"'][1..] == [];
    }
  }

  // ----- Written values -----

  lemma {:induction false} NeutralPieces(p: Pieces)
    requires ValidPieces(p)
    ensures Neutral(PrintPieces(p))
    decreases p
  {
    hide Neutral, StringBody;
    match p
    case NoPieces => NeutralNothing();
    case Plain(c, rest) =>
      NeutralChar(c);
      NeutralPieces(rest);
      NeutralJoins([c], PrintPieces(rest));
    case Quote(body, rest) =>
      NeutralQuoted(body);
      NeutralPieces(rest);
      NeutralJoins(PrintQuoted(body), PrintPieces(rest));
    case Group(open, inner, close, rest) =>
      NeutralPieces(inner);
      NeutralBracketed(open, PrintPieces(inner), close);
      NeutralPieces(rest);
      NeutralJoins(PrintGroup(open, inner, close), PrintPieces(rest));
  }

  lemma NeutralGroup(open: char, inner: Pieces, close: char)
    requires IsOpen(open) && ValidPieces(inner) && IsClose(close)
    ensures Neutral(PrintGroup(open, inner, close))
  {
    hide Neutral, ValidPieces, PrintPieces;
    NeutralPieces(inner);
    NeutralBracketed(open, PrintPieces(inner), close);
  }

  lemma {:induction false} NeutralValue(v: Value)
    requires Valid(v)
    ensures Neutral(Print(v))
    decreases v, 1
  {
    hide Neutral, StringBody, ValidPieces, PrintGroup, BareText, Identifier, AllSpace;
    match v
    case Keyword(word) => KeywordIsName(word); NeutralWord(word);
    case Bare(s) => NeutralWord(s);
    case Quoted(mark, body) =>
      if mark == [] { NeutralNothing(); } else { NeutralWord(mark); }
      NeutralQuoted(body);
      NeutralJoins(mark, PrintQuoted(body));
    case Call(name, gap, args) =>
      NeutralWord(name);
      NeutralWord(gap);
      NeutralGroup('(', args, ')');
      NeutralJoins(gap, PrintGroup('(', args, ')'));
      NeutralJoins(name, gap + PrintGroup('(', args, ')'));
    case Typed(name, gap, types, gap2, args) =>
      var last := gap2 + PrintGroup('(', args, ')');
      NeutralWord(name);
      NeutralWord(gap);
      NeutralGroup('[', types, ']');
      NeutralWord(gap2);
      NeutralGroup('(', args, ')');
      NeutralJoins(gap2, PrintGroup('(', args, ')'));
      NeutralJoins(PrintGroup('[', types, ']'), last);
      NeutralJoins(gap, PrintGroup('[', types, ']') + last);
      NeutralJoins(name, gap + (PrintGroup('[', types, ']') + last));
    case Array(elements) =>
      NeutralElements(elements);
      NeutralBracketed('[', Within1(PrintElements(elements)), ']');
      LastJoins(PrintElements(elements));
    case Dictionary(pairs) =>
      NeutralPairs(pairs);
      NeutralBracketed('{', Within1(PrintPairs(pairs)), '}');
      LastJoins(PrintPairs(pairs));
  }

  lemma KeywordIsName(word: string)
    requires IsValueKeyword(word)
    ensures Identifier(word)
  {
  }

  /** A text without its last character. */
  function Within1(s: string): string
    requires s != []
  {
    s[..|s| - 1]
  }

  lemma LastJoins(s: string)
    requires s != []
    ensures Within1(s) + [s[|s| - 1]] == s
  {
  }

  lemma {:induction false} NeutralElements(e: Elements)
    requires ValidElements(e)
    ensures PrintElements(e) != [] && PrintElements(e)[|PrintElements(e)| - 1] == ']'
    ensures Neutral(Within1(PrintElements(e)))
    decreases e, 0
  {
    hide Neutral, AllSpace, Valid, Print;
    if e.NoElement? {
      NeutralWord(e.trail);
      assert Within1(PrintElements(e)) == e.trail;
    } else {
      NeutralWord(e.lead);
      NeutralValue(e.value);
      NeutralWord(e.trail);
      NeutralJoins(Print(e.value), e.trail);
      NeutralJoins(e.lead, Print(e.value) + e.trail);
      var front := e.lead + (Print(e.value) + e.trail);
      if e.MoreElements? {
        NeutralElements(e.rest);
        NeutralChar(',');
        NeutralJoins([','], Within1(PrintElements(e.rest)));
        NeutralJoins(front, [','] + Within1(PrintElements(e.rest)));
        assert Within1(PrintElements(e)) == front + ([','] + Within1(PrintElements(e.rest)));
      } else {
        assert Within1(PrintElements(e)) == front;
      }
    }
  }

  /** The front of a pair, up to the spaces behind its value. */
  function PairFront(p: Pairs): string
    requires !p.NoPair?
  {
    p.lead + (Print(p.key) + (p.mid + ([':'] + (p.mid2 + (Print(p.value) + p.trail)))))
  }

  lemma {:induction false} NeutralFront(p: Pairs)
    requires ValidPairs(p) && !p.NoPair?
    ensures Neutral(PairFront(p))
    decreases p, 0
  {
    hide Neutral, AllSpace, Valid, Print;
    NeutralWord(p.lead);
    NeutralValue(p.key);
    NeutralWord(p.mid);
    NeutralChar(':');
    NeutralWord(p.mid2);
    NeutralValue(p.value);
    NeutralWord(p.trail);
    NeutralJoins(Print(p.value), p.trail);
    NeutralJoins(p.mid2, Print(p.value) + p.trail);
    NeutralJoins([':'], p.mid2 + (Print(p.value) + p.trail));
    NeutralJoins(p.mid, [':'] + (p.mid2 + (Print(p.value) + p.trail)));
    NeutralJoins(Print(p.key), p.mid + ([':'] + (p.mid2 + (Print(p.value) + p.trail))));
    NeutralJoins(p.lead, Print(p.key) + (p.mid + ([':'] + (p.mid2 + (Print(p.value) + p.trail)))));
  }

  lemma PairIs(p: Pairs)
    requires !p.NoPair?
    ensures PrintPairs(p) == PairFront(p) + ([PairSeparatorChar(p)] + AfterPairText(p))
  {
    hide Print;
    PairsShape(p);
    var tail := [PairSeparatorChar(p)] + AfterPairText(p);
    Regrouped(Print(p.value), p.trail, tail);
    Regrouped(p.mid2, Print(p.value) + p.trail, tail);
    Regrouped([':'], p.mid2 + (Print(p.value) + p.trail), tail);
    Regrouped(p.mid, [':'] + (p.mid2 + (Print(p.value) + p.trail)), tail);
    Regrouped(Print(p.key), p.mid + ([':'] + (p.mid2 + (Print(p.value) + p.trail))), tail);
    Regrouped(p.lead, Print(p.key) + (p.mid + ([':'] + (p.mid2 + (Print(p.value) + p.trail)))), tail);
  }

  lemma {:induction false} NeutralPairs(p: Pairs)
    requires ValidPairs(p)
    ensures PrintPairs(p) != [] && PrintPairs(p)[|PrintPairs(p)| - 1] == '}'
    ensures Neutral(Within1(PrintPairs(p)))
    decreases p, 1
  {
    hide Neutral, AllSpace, Valid, Print, PairFront;
    if p.NoPair? {
      NeutralWord(p.trail);
      assert Within1(PrintPairs(p)) == p.trail;
    } else {
      NeutralFront(p);
      PairIs(p);
      if p.MorePairs? {
        NeutralPairs(p.rest);
        NeutralChar(',');
        NeutralJoins([','], Within1(PrintPairs(p.rest)));
        NeutralJoins(PairFront(p), [','] + Within1(PrintPairs(p.rest)));
        assert Within1(PrintPairs(p)) == PairFront(p) + ([','] + Within1(PrintPairs(p.rest)));
      } else {
        assert Within1(PrintPairs(p)) == PairFront(p);
      }
    }
  }

  // ----- Beginnings of a value -----

  /** A beginning of `n` characters stops inside the value's string, or inside one of its brackets. */
  predicate StopsInside(v: Value, n: nat) {
    match v
    case Keyword(_) => false
    case Bare(_) => false
    case Quoted(mark, _) => |mark| < n < |Print(v)|
    case Call(name, gap, _) => |name| + |gap| < n < |Print(v)|
    case Typed(name, gap, _, _, _) => InTypes(v, n) || (NoNewline(gap) && InArguments(v, n))
    case Array(_) => 0 < n < |Print(v)|
    case Dictionary(_) => 0 < n < |Print(v)|
  }

  predicate InTypes(v: Value, n: nat)
    requires v.Typed?
  {
    |v.name| + |v.gap| < n < |v.name| + |v.gap| + |PrintGroup('[', v.types, ']')|
  }

  predicate InArguments(v: Value, n: nat)
    requires v.Typed?
  {
    |v.name| + |v.gap| + |PrintGroup('[', v.types, ']')| + |v.gap2| < n < |Print(v)|
  }

  /** What stands before the inside it stops in, the opening character included. */
  function Before(v: Value, n: nat): string
    requires StopsInside(v, n)
  {
    match v
    case Quoted(mark, _) => mark + ['"']
    case Call(name, gap, _) => name + (gap + ['('])
    case Typed(name, gap, types, gap2, _) =>
      if InTypes(v, n) then name + (gap + ['['])
      else name + (gap + (PrintGroup('[', types, ']') + (gap2 + ['('])))
    case Array(_) => ['[']
    case Dictionary(_) => ['{']
  }

  /** That inside, up to what closes it. */
  function InsideOf(v: Value, n: nat): string
    requires StopsInside(v, n)
  {
    match v
    case Quoted(_, body) => body
    case Call(_, _, args) => PrintPieces(args)
    case Typed(_, _, types, _, args) => if InTypes(v, n) then PrintPieces(types) else PrintPieces(args)
    case Array(elements) => PrintElements(elements)[..|PrintElements(elements)| - 1]
    case Dictionary(pairs) => PrintPairs(pairs)[..|PrintPairs(pairs)| - 1]
  }

  /** What closes that inside, and everything behind it. */
  function Behind(v: Value, n: nat): string
    requires StopsInside(v, n)
  {
    match v
    case Quoted(_, _) => ['"']
    case Call(_, _, _) => [')']
    case Typed(_, _, _, gap2, args) => if InTypes(v, n) then [']'] + (gap2 + PrintGroup('(', args, ')')) else [')']
    case Array(elements) => [PrintElements(elements)[|PrintElements(elements)| - 1]]
    case Dictionary(pairs) => [PrintPairs(pairs)[|PrintPairs(pairs)| - 1]]
  }

  lemma PartsAre(v: Value, n: nat)
    requires StopsInside(v, n)
    ensures Print(v) == Before(v, n) + (InsideOf(v, n) + Behind(v, n)) && Behind(v, n) != []
  {
    match v
    case Quoted(mark, body) => hide *; QuoteParts(mark, body);
    case Call(_, _, _) => hide *; CallParts(v, n);
    case Typed(_, _, _, _, _) => hide *; TypedParts(v, n);
    case Array(elements) =>
      hide PrintElements;
      LastJoins(PrintElements(elements));
    case Dictionary(pairs) =>
      hide PrintPairs;
      LastJoins(PrintPairs(pairs));
  }

  lemma QuoteParts(mark: string, body: string)
    ensures Print(Quoted(mark, body)) == (mark + ['"']) + (body + ['"'])
    ensures forall n: nat | StopsInside(Quoted(mark, body), n) ::
      && Before(Quoted(mark, body), n) == mark + ['"'] && InsideOf(Quoted(mark, body), n) == body
      && Behind(Quoted(mark, body), n) == ['"']
  {
    Regrouped(mark, ['"'], body + ['"']);
  }

  lemma CallParts(v: Value, n: nat)
    requires v.Call? && StopsInside(v, n)
    ensures Print(v) == Before(v, n) + (InsideOf(v, n) + Behind(v, n)) && Behind(v, n) != []
  {
    hide PrintPieces;
    var group := PrintPieces(v.args) + [')'];
    Regrouped(v.gap, ['('], group);
    Regrouped(v.name, v.gap + ['('], group);
  }

  lemma TypedParts(v: Value, n: nat)
    requires v.Typed? && StopsInside(v, n)
    ensures Print(v) == Before(v, n) + (InsideOf(v, n) + Behind(v, n)) && Behind(v, n) != []
  {
    hide PrintPieces;
    var types, args := PrintPieces(v.types), PrintPieces(v.args) + [')'];
    var call := ['('] + args;
    if InTypes(v, n) {
      var tail := types + ([']'] + (v.gap2 + call));
      Regrouped(types, [']'], v.gap2 + call);
      Regrouped(['['], types + [']'], v.gap2 + call);
      Regrouped(v.gap, ['['], tail);
      Regrouped(v.name, v.gap + ['['], tail);
    } else {
      hide PrintGroup;
      var group := PrintGroup('[', v.types, ']');
      assert PrintGroup('(', v.args, ')') == call by { GroupIs(v.args); }
      Regrouped(v.gap2, ['('], args);
      Regrouped(group, v.gap2 + ['('], args);
      Regrouped(v.gap, group + (v.gap2 + ['(']), args);
      Regrouped(v.name, v.gap + (group + (v.gap2 + ['('])), args);
    }
  }

  lemma GroupIs(args: Pieces)
    ensures PrintGroup('(', args, ')') == ['('] + (PrintPieces(args) + [')'])
  {
  }

  lemma CutAt(a: string, b: string, c: string, n: nat)
    requires |a| <= n <= |a| + |b|
    ensures (a + (b + c))[..n] == a + b[..n - |a|]
  {
  }

  lemma CutIsThere(v: Value, n: nat)
    requires StopsInside(v, n)
    ensures |Before(v, n)| <= n <= |Before(v, n)| + |InsideOf(v, n)| < |Print(v)|
  {
    hide PrintPieces, PrintElements, PrintPairs;
  }

  lemma CutIs(v: Value, n: nat)
    requires StopsInside(v, n)
    ensures var k := |Before(v, n)|;
      && k <= n <= k + |InsideOf(v, n)| < |Print(v)|
      && Print(v)[..n] == Before(v, n) + InsideOf(v, n)[..n - k]
  {
    hide *;
    CutIsThere(v, n);
    PartsAre(v, n);
    CutAt(Before(v, n), InsideOf(v, n), Behind(v, n), n);
  }

  /** From there to the cut the value stays inside. */
  lemma CutStaysInside(v: Value, n: nat)
    requires Valid(v) && StopsInside(v, n)
    ensures |Before(v, n)| <= n <= |Before(v, n)| + |InsideOf(v, n)|
    ensures Stays(if v.Quoted? then IN_STRING else IN_BRACKET, InsideOf(v, n)[..n - |Before(v, n)|])
  {
    CutIs(v, n);
    InsideStays(v, n);
    hide *;
    StaysBefore(if v.Quoted? then IN_STRING else IN_BRACKET, InsideOf(v, n), n - |Before(v, n)|);
  }

  lemma InsideStays(v: Value, n: nat)
    requires Valid(v) && StopsInside(v, n)
    ensures Stays(if v.Quoted? then IN_STRING else IN_BRACKET, InsideOf(v, n))
  {
    hide Stays, StringBody, ValidPieces, ValidElements, ValidPairs, PrintPieces, PrintElements, PrintPairs;
    match v
    case Quoted(_, body) => QuotedStays(IN_STRING, body);
    case Call(_, _, args) => NeutralPieces(args); IsNeutral(PrintPieces(args));
    case Typed(_, _, types, _, args) =>
      NeutralPieces(types);
      NeutralPieces(args);
      IsNeutral(PrintPieces(types));
      IsNeutral(PrintPieces(args));
    case Array(elements) => NeutralElements(elements); IsNeutral(InsideOf(v, n));
    case Dictionary(pairs) => NeutralPairs(pairs); IsNeutral(InsideOf(v, n));
  }

  lemma IsNeutral(s: string)
    requires Neutral(s)
    ensures Stays(IN_BRACKET, s)
  {
    assert NeutralAt(s, 1);
  }
}
