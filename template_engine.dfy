/**
 * The template engine: a label template is scanned left to right into
 * literal characters and directives, each directive is replaced by the text
 * the resolver gives for the entry (or by nothing when the value is absent),
 * and the spaces are then normalised. A template may hold several segments
 * separated by "::"; each is rendered on its own and the results are joined
 * with "::" again.
 */
module TemplateEngine {
  import opened Wrappers
  import opened Whitespace
  import opened HistoryItems
  import opened PlaceholderResolver

  /** One unit of a scanned template. */
  datatype Token = Literal(c: char) | Placeholder(d: Directive)

  /**
   * Splits a template into tokens: '%' followed by a directive character is a
   * placeholder; every other character, including a '%' followed by anything
   * else or by nothing, is literal.
   */
  function Scan(s: string): seq<Token> {
    if s == [] then []
    else if s[0] == '%' && |s| > 1 && ParseDirective(s[1]).Some? then
      [Placeholder(ParseDirective(s[1]).value)] + Scan(s[2..])
    else [Literal(s[0])] + Scan(s[1..])
  }

  /** The template text a token was scanned from. */
  function TokenText(t: Token): string {
    match t
    case Literal(c) => [c]
    case Placeholder(d) => ['%', DirectiveChar(d)]
  }

  /** The two-character text of a directive. */
  function DirectiveText(d: Directive): string {
    TokenText(Placeholder(d))
  }

  function Unscan(ts: seq<Token>): string {
    if ts == [] then [] else TokenText(ts[0]) + Unscan(ts[1..])
  }

  /** Scanning loses nothing: the tokens spell out the template again. */
  lemma {:induction false} ScanLossless(s: string)
    ensures Unscan(Scan(s)) == s
  {
    if s != [] {
      if s[0] == '%' && |s| > 1 && ParseDirective(s[1]).Some? {
        ScanLossless(s[2..]);
        assert s == ['%', s[1]] + s[2..];
      } else {
        ScanLossless(s[1..]);
        assert s == [s[0]] + s[1..];
      }
    }
  }

  /** The text a token is replaced by: itself for a literal, the resolved value or nothing for a placeholder. */
  function TokenValue(e: HistoryEntry, t: Token): string {
    match t
    case Literal(c) => [c]
    case Placeholder(d) => match Resolve(e, d) case Some(v) => v case None => ""
  }

  function Expand(e: HistoryEntry, ts: seq<Token>): string {
    if ts == [] then [] else TokenValue(e, ts[0]) + Expand(e, ts[1..])
  }

  /** Replaces every directive of a template by its value for the entry. */
  function Substitute(e: HistoryEntry, s: string): string {
    Expand(e, Scan(s))
  }

  /** Renders one segment: substitution first, then space normalisation. */
  function RenderSegment(e: HistoryEntry, s: string): string {
    Collapse(Substitute(e, s))
  }

  /** The segment delimiter. */
  const Delimiter: string := "::"

  /** No "::" inside the text. */
  predicate NoDelimiter(s: string) {
    |s| < 2 || (!(s[0] == ':' && s[1] == ':') && NoDelimiter(s[1..]))
  }

  /** Splits a template at every "::", from the left. */
  function Split(t: string): (segs: seq<string>)
    ensures |segs| > 0
    decreases |t|
  {
    if |t| < 2 then [t]
    else if t[0] == ':' && t[1] == ':' then [""] + Split(t[2..])
    else
      var rest := Split(t[1..]);
      [[t[0]] + rest[0]] + rest[1..]
  }

  /** Joins segments with "::" between them. */
  function Join(segs: seq<string>): string {
    if segs == [] then []
    else if |segs| == 1 then segs[0]
    else segs[0] + Delimiter + Join(segs[1..])
  }

  function RenderSegments(e: HistoryEntry, segs: seq<string>): seq<string> {
    if segs == [] then [] else [RenderSegment(e, segs[0])] + RenderSegments(e, segs[1..])
  }

  /** Renders a template: each "::"-separated segment on its own, joined again with "::". */
  function Render(e: HistoryEntry, t: string): string {
    Join(RenderSegments(e, Split(t)))
  }

  // ---------------------------------------------------------------------
  // Splitting into segments

  /**
   * Splitting yields at least one segment, no segment holds "::", joining
   * the segments gives back the template, and the first cut is at the
   * leftmost "::".
   */
  lemma {:induction false} SplitJoin(t: string)
    ensures |Split(t)| > 0
    ensures forall i :: 0 <= i < |Split(t)| ==> NoDelimiter(Split(t)[i])
    ensures Join(Split(t)) == t
    ensures Split(t)[0] != [] ==> |t| > 0 && Split(t)[0][0] == t[0]
    ensures |Split(t)| > 1 ==> |Split(t)[0]| + 2 <= |t| && NoDelimiter(t[..|Split(t)[0]| + 1])
    ensures |Split(t)| > 1 ==> Split(t)[1..] == Split(t[|Split(t)[0]| + 2..])
  {
    SplitFirst(t);
    SplitSegments(t);
    SplitJoinsBack(t);
    SplitLeftmost(t);
    SplitRest(t);
  }

  /** The segments after the first are the split of the text after the first "::", so every cut is leftmost. */
  lemma {:induction false} SplitRest(t: string)
    ensures |Split(t)| > 1 ==> |Split(t)[0]| + 2 <= |t| && Split(t)[1..] == Split(t[|Split(t)[0]| + 2..])
    decreases |t|
  {
    if |t| >= 2 && t[0] == ':' && t[1] == ':' {
      assert Split(t)[1..] == Split(t[2..]);
    } else if |t| >= 2 {
      var rest := Split(t[1..]);
      SplitRest(t[1..]);
      if |rest| > 1 {
        assert t[1..][|rest[0]| + 2..] == t[|Split(t)[0]| + 2..];
      }
    }
  }

  /** When there is a cut, no "::" starts before the end of the first segment: the cut is the leftmost "::". */
  lemma {:induction false} SplitLeftmost(t: string)
    ensures |Split(t)| > 1 ==> |Split(t)[0]| + 2 <= |t| && NoDelimiter(t[..|Split(t)[0]| + 1])
    decreases |t|
  {
    if |t| >= 2 && !(t[0] == ':' && t[1] == ':') {
      var rest := Split(t[1..]);
      SplitLeftmost(t[1..]);
      if |rest| > 1 {
        var u := t[1..][..|rest[0]| + 1];
        assert t[..|Split(t)[0]| + 1] == [t[0]] + u;
        assert ([t[0]] + u)[1..] == u;
      }
    }
  }

  /** There is a first segment, and it starts the template. */
  lemma {:induction false} SplitFirst(t: string)
    ensures |Split(t)| > 0
    ensures Split(t)[0] != [] ==> |t| > 0 && Split(t)[0][0] == t[0]
    decreases |t|
  {
    if |t| >= 2 && !(t[0] == ':' && t[1] == ':') {
      SplitFirst(t[1..]);
    } else if |t| >= 2 {
      SplitFirst(t[2..]);
    }
  }

  /** No segment holds "::". */
  lemma {:induction false} SplitSegments(t: string)
    ensures forall i :: 0 <= i < |Split(t)| ==> NoDelimiter(Split(t)[i])
    decreases |t|
  {
    if |t| < 2 {
    } else if t[0] == ':' && t[1] == ':' {
      SplitSegments(t[2..]);
    } else {
      var rest := Split(t[1..]);
      SplitFirst(t[1..]);
      SplitSegments(t[1..]);
      var first := [t[0]] + rest[0];
      assert Split(t) == [first] + rest[1..];
      assert NoDelimiter(first) by {
        if |first| >= 2 {
          assert first[1..] == rest[0];
        }
      }
      forall i | 0 <= i < |Split(t)|
        ensures NoDelimiter(Split(t)[i])
      {
        if i > 0 {
          assert Split(t)[i] == rest[i];
        }
      }
    }
  }

  /** Joining the segments gives back the template. */
  lemma {:induction false} SplitJoinsBack(t: string)
    ensures Join(Split(t)) == t
    decreases |t|
  {
    if |t| < 2 {
    } else if t[0] == ':' && t[1] == ':' {
      SplitJoinsBack(t[2..]);
      SplitFirst(t[2..]);
      assert t == Delimiter + t[2..];
    } else {
      var rest := Split(t[1..]);
      SplitFirst(t[1..]);
      SplitJoinsBack(t[1..]);
      assert Split(t) == [[t[0]] + rest[0]] + rest[1..];
      JoinCons(t[0], rest);
      assert t == [t[0]] + t[1..];
    }
  }

  /** A character put in front of the first segment comes out in front of the joined text. */
  lemma {:induction false} JoinCons(c: char, segs: seq<string>)
    requires |segs| > 0
    ensures Join([[c] + segs[0]] + segs[1..]) == [c] + Join(segs)
  {
    var s := [[c] + segs[0]] + segs[1..];
    if |segs| > 1 {
      assert s[1..] == segs[1..];
    }
  }

  /** A template without "::" is a single segment. */
  lemma {:induction false} SplitWithoutDelimiter(t: string)
    requires NoDelimiter(t)
    ensures Split(t) == [t]
    decreases |t|
  {
    if |t| >= 2 {
      SplitWithoutDelimiter(t[1..]);
      assert [t[0]] + t[1..] == t;
    }
  }

  // ---------------------------------------------------------------------
  // Substitution

  lemma {:induction false} ExpandAppend(e: HistoryEntry, xs: seq<Token>, ys: seq<Token>)
    ensures Expand(e, xs + ys) == Expand(e, xs) + Expand(e, ys)
  {
    if xs == [] {
      assert xs + ys == ys;
    } else {
      assert (xs + ys)[1..] == xs[1..] + ys;
      ExpandAppend(e, xs[1..], ys);
    }
  }

  /** A character that cannot follow '%' in a directive is copied as it stands. */
  lemma {:induction false} SubstituteLiteralCons(e: HistoryEntry, c: char, x: string)
    requires !(c == '%' && |x| > 0 && ParseDirective(x[0]).Some?)
    ensures Substitute(e, [c] + x) == [c] + Substitute(e, x)
  {
    assert ([c] + x)[1..] == x;
  }

  /** A directive at the front is replaced by its value. */
  lemma {:induction false} SubstituteDirectiveCons(e: HistoryEntry, d: Directive, x: string)
    ensures Substitute(e, ['%', DirectiveChar(d)] + x) == TokenValue(e, Placeholder(d)) + Substitute(e, x)
  {
    assert (['%', DirectiveChar(d)] + x)[2..] == x;
  }

  /**
   * A character that is not a directive character separates the template:
   * what stands before it and what stands after it are substituted
   * independently, and it is kept.
   */
  lemma {:induction false} SubstituteSeparator(e: HistoryEntry, a: string, c: char, x: string)
    requires ParseDirective(c).None?
    ensures Substitute(e, a + [c] + x) == Substitute(e, a) + [c] + Substitute(e, x)
  {
    ScanSeparator(a, c, x);
    ExpandAppend(e, Scan(a) + [Literal(c)], Scan(x));
    ExpandAppend(e, Scan(a), [Literal(c)]);
    assert Expand(e, [Literal(c)]) == [c];
  }

  /** A separator character scans as a literal token between the tokens of either side. */
  lemma {:induction false} ScanSeparator(a: string, c: char, x: string)
    requires ParseDirective(c).None?
    ensures Scan(a + [c] + x) == Scan(a) + [Literal(c)] + Scan(x)
    decreases |a|
  {
    assert c != '%' by {
      assert DirectiveChar(Percent) == '%';
    }
    var s := a + [c] + x;
    if a == [] {
      assert s == [c] + x && s[1..] == x;
    } else if a[0] == '%' && |a| > 1 && ParseDirective(a[1]).Some? {
      ScanSeparator(a[2..], c, x);
      assert s[2..] == a[2..] + [c] + x;
    } else {
      ScanSeparator(a[1..], c, x);
      assert s[1..] == a[1..] + [c] + x;
      assert |a| == 1 ==> s[1] == c;
    }
  }

  /**
   * A directive that follows a separator character is replaced by its value,
   * whatever stands around it.
   */
  lemma {:induction false} DirectiveAfterSeparator(e: HistoryEntry, a: string, c: char, d: Directive, b: string)
    requires ParseDirective(c).None?
    ensures Substitute(e, a + [c] + ['%', DirectiveChar(d)] + b)
         == Substitute(e, a) + [c] + TokenValue(e, Placeholder(d)) + Substitute(e, b)
  {
    var x := ['%', DirectiveChar(d)] + b;
    SubstituteDirectiveCons(e, d, b);
    SubstituteSeparator(e, a, c, x);
    assert a + [c] + ['%', DirectiveChar(d)] + b == a + [c] + x;
    var sa, v, sb := Substitute(e, a), TokenValue(e, Placeholder(d)), Substitute(e, b);
    assert sa + [c] + (v + sb) == sa + [c] + v + sb;
  }

  /** Substitutes each word on its own. */
  function SubstituteEach(e: HistoryEntry, ws: seq<string>): seq<string> {
    seq(|ws|, i requires 0 <= i < |ws| => Substitute(e, ws[i]))
  }

  /** Substitution works word by word on a template of space-separated words. */
  lemma {:induction false} SubstituteWords(e: HistoryEntry, ws: seq<string>)
    ensures Substitute(e, Words(ws)) == Words(SubstituteEach(e, ws))
  {
    if ws == [] {
      assert Substitute(e, []) == [];
    } else if |ws| == 1 {
      assert SubstituteEach(e, ws) == [Substitute(e, ws[0])];
    } else {
      var rest := ws[1..];
      var ss := SubstituteEach(e, rest);
      SubstituteWords(e, rest);
      assert ParseDirective(' ').None?;
      calc {
        Substitute(e, Words(ws));
      == { assert ws == [ws[0]] + rest; WordsCons(ws[0], rest); }
        Substitute(e, ws[0] + " " + Words(rest));
      == { SubstituteSeparator(e, ws[0], ' ', Words(rest)); }
        Substitute(e, ws[0]) + " " + Substitute(e, Words(rest));
        Substitute(e, ws[0]) + " " + Words(ss);
      == { WordsCons(Substitute(e, ws[0]), ss); assert SubstituteEach(e, ws) == [Substitute(e, ws[0])] + ss; }
        Words(SubstituteEach(e, ws));
      }
    }
  }

  /**
   * Words separated by single spaces whose values are plain and present
   * render as those values separated by single spaces.
   */
  lemma {:induction false} RenderPlainWords(e: HistoryEntry, ws: seq<string>)
    requires |ws| > 0
    requires forall i :: 0 <= i < |ws| ==> PlainWord(Substitute(e, ws[i])) && Substitute(e, ws[i]) != []
    ensures Render(e, Words(ws)) == Words(SubstituteEach(e, ws))
  {
    RenderInOnePass(e, Words(ws));
    SubstituteWords(e, ws);
    WordsArePlain(SubstituteEach(e, ws));
    CollapseFixesNormal(Words(SubstituteEach(e, ws)));
  }

  /** The texts of a list of directives. */
  function DirectiveTexts(ds: seq<Directive>): seq<string> {
    seq(|ds|, i requires 0 <= i < |ds| => DirectiveText(ds[i]))
  }

  /** The values of a list of directives for an entry, the empty text for an absent one. */
  function DirectiveValues(e: HistoryEntry, ds: seq<Directive>): seq<string> {
    seq(|ds|, i requires 0 <= i < |ds| => TokenValue(e, Placeholder(ds[i])))
  }

  /** A directive on its own becomes its value. */
  lemma {:induction false} SubstituteDirectiveAlone(e: HistoryEntry, d: Directive)
    ensures Substitute(e, DirectiveText(d)) == TokenValue(e, Placeholder(d))
  {
    SubstituteDirectiveCons(e, d, []);
    assert DirectiveText(d) + [] == DirectiveText(d);
    assert Substitute(e, []) == [];
  }

  /** Directives on their own become their values, absent ones the empty text. */
  lemma {:induction false} SubstituteDirectives(e: HistoryEntry, ds: seq<Directive>)
    ensures SubstituteEach(e, DirectiveTexts(ds)) == DirectiveValues(e, ds)
  {
    forall i | 0 <= i < |ds|
      ensures Substitute(e, DirectiveText(ds[i])) == TokenValue(e, Placeholder(ds[i]))
    {
      SubstituteDirectiveAlone(e, ds[i]);
    }
  }

  /** Text without directives: no '%' is followed by a directive character. */
  predicate NoDirective(s: string) {
    |s| < 2 || (!(s[0] == '%' && ParseDirective(s[1]).Some?) && NoDirective(s[1..]))
  }

  /** Text without directives passes substitution unchanged. */
  lemma {:induction false} SubstituteWithoutDirective(e: HistoryEntry, s: string)
    requires NoDirective(s)
    ensures Substitute(e, s) == s
  {
    if s != [] {
      SubstituteWithoutDirective(e, s[1..]);
      assert s == [s[0]] + s[1..];
      SubstituteLiteralCons(e, s[0], s[1..]);
    }
  }

  // ---------------------------------------------------------------------
  // Rendering

  /** The delimiter separates a whole-template rendering into independent halves. */
  lemma {:induction false} RenderSegmentDelimiter(e: HistoryEntry, a: string, b: string)
    ensures RenderSegment(e, a + Delimiter + b) == RenderSegment(e, a) + Delimiter + RenderSegment(e, b)
  {
    SubstituteDelimiter(e, a, b);
    CollapseAroundDelimiter(Substitute(e, a), Substitute(e, b));
  }

  /** Substitution keeps the delimiter and works on both sides of it independently. */
  lemma {:induction false} SubstituteDelimiter(e: HistoryEntry, a: string, b: string)
    ensures Substitute(e, a + Delimiter + b) == Substitute(e, a) + Delimiter + Substitute(e, b)
  {
    assert ParseDirective(':').None?;
    assert a + Delimiter + b == a + [':'] + ([':'] + b);
    SubstituteSeparator(e, a, ':', [':'] + b);
    SubstituteLiteralCons(e, ':', b);
    var sa, sb := Substitute(e, a), Substitute(e, b);
    assert sa + [':'] + ([':'] + sb) == sa + Delimiter + sb;
  }

  /** Normalising spaces works on both sides of the delimiter independently. */
  lemma {:induction false} CollapseAroundDelimiter(x: string, y: string)
    ensures Collapse(x + Delimiter + y) == Collapse(x) + Delimiter + Collapse(y)
  {
    calc {
      Collapse(x + Delimiter + y);
    == { assert x + Delimiter + y == x + (Delimiter + y); }
      Collapse(x + (Delimiter + y));
    == { CollapseAppend(x, Delimiter + y); }
      Collapse(x) + Collapse(Delimiter + y);
    == { CollapseAppend(Delimiter, y); CollapseFixesNormal(Delimiter); }
      Collapse(x) + (Delimiter + Collapse(y));
    == { assert Collapse(x) + (Delimiter + Collapse(y)) == Collapse(x) + Delimiter + Collapse(y); }
      Collapse(x) + Delimiter + Collapse(y);
    }
  }

  /** Rendering segments and joining them equals rendering the joined text in one pass. */
  lemma {:induction false} RenderSegmentsJoin(e: HistoryEntry, segs: seq<string>)
    ensures Join(RenderSegments(e, segs)) == RenderSegment(e, Join(segs))
  {
    if segs == [] {
      assert Substitute(e, []) == [];
    } else if |segs| == 1 {
      assert RenderSegments(e, segs) == [RenderSegment(e, segs[0])];
    } else {
      RenderSegmentsJoin(e, segs[1..]);
      var tail := RenderSegments(e, segs[1..]);
      assert tail != [];
      assert RenderSegments(e, segs)[1..] == tail;
      RenderSegmentDelimiter(e, segs[0], Join(segs[1..]));
    }
  }

  /**
   * Rendering segment by segment gives the same label as substituting and
   * normalising the whole template at once: the delimiter never takes part
   * in a directive or in a run of spaces.
   */
  lemma {:induction false} RenderInOnePass(e: HistoryEntry, t: string)
    ensures Render(e, t) == RenderSegment(e, t)
  {
    SplitJoin(t);
    RenderSegmentsJoin(e, Split(t));
  }

  /** Segment independence: the two halves of "A::B" render as A and B do on their own. */
  lemma {:induction false} SegmentIndependence(e: HistoryEntry, a: string, b: string)
    ensures Render(e, a + Delimiter + b) == Render(e, a) + Delimiter + Render(e, b)
  {
    RenderInOnePass(e, a + Delimiter + b);
    RenderInOnePass(e, a);
    RenderInOnePass(e, b);
    RenderSegmentDelimiter(e, a, b);
  }

  /** A rendered label never holds two adjacent spaces. */
  lemma {:induction false} RenderNormalised(e: HistoryEntry, t: string)
    ensures NoDoubleSpace(Render(e, t))
  {
    RenderInOnePass(e, t);
    CollapseNormalises(Substitute(e, t));
  }

  /** Normalising the template's own spaces first does not change the rendering. */
  lemma {:induction false} RenderSegmentIgnoresSpacing(e: HistoryEntry, t: string)
    ensures RenderSegment(e, t) == RenderSegment(e, Collapse(t))
    decreases |t|
  {
    if t == [] {
    } else if t[0] == ' ' && |t| > 1 && t[1] == ' ' {
      RenderSegmentIgnoresSpacing(e, t[1..]);
      IgnoresSpacingSpaceRun(e, t[1..]);
      assert t == [' '] + t[1..];
    } else if t[0] == '%' && |t| > 1 && ParseDirective(t[1]).Some? {
      var d := ParseDirective(t[1]).value;
      RenderSegmentIgnoresSpacing(e, t[2..]);
      IgnoresSpacingDirective(e, d, t[2..]);
      assert t == ['%', DirectiveChar(d)] + t[2..];
    } else {
      RenderSegmentIgnoresSpacing(e, t[1..]);
      IgnoresSpacingLiteral(e, t[0], t[1..]);
      assert t == [t[0]] + t[1..];
    }
  }

  /** The step of RenderSegmentIgnoresSpacing for a space that starts a run of spaces. */
  lemma {:induction false} IgnoresSpacingSpaceRun(e: HistoryEntry, r: string)
    requires |r| > 0 && r[0] == ' '
    requires RenderSegment(e, r) == RenderSegment(e, Collapse(r))
    ensures RenderSegment(e, [' '] + r) == RenderSegment(e, Collapse([' '] + r))
  {
    CollapseCons(' ', r);
    SubstituteLiteralCons(e, ' ', r);
    assert r == [' '] + r[1..];
    SubstituteLiteralCons(e, ' ', r[1..]);
    CollapseCons(' ', Substitute(e, r));
  }

  /** The step of RenderSegmentIgnoresSpacing for a directive. */
  lemma {:induction false} IgnoresSpacingDirective(e: HistoryEntry, d: Directive, r: string)
    requires RenderSegment(e, r) == RenderSegment(e, Collapse(r))
    ensures RenderSegment(e, DirectiveText(d) + r) == RenderSegment(e, Collapse(DirectiveText(d) + r))
  {
    var v := TokenValue(e, Placeholder(d));
    CollapseAfterDirective(d, r);
    SubstituteDirectiveCons(e, d, r);
    SubstituteDirectiveCons(e, d, Collapse(r));
    CollapseCongruence(v, Substitute(e, r));
    CollapseCongruence(v, Substitute(e, Collapse(r)));
  }

  /** A directive's text has no space, so normalising leaves it in front of the normalised rest. */
  lemma {:induction false} CollapseAfterDirective(d: Directive, r: string)
    ensures Collapse(DirectiveText(d) + r) == DirectiveText(d) + Collapse(r)
  {
    assert DirectiveText(d) + r == ['%'] + ([DirectiveChar(d)] + r);
    assert DirectiveText(d) + Collapse(r) == ['%'] + ([DirectiveChar(d)] + Collapse(r));
    CollapseCons('%', [DirectiveChar(d)] + r);
    CollapseCons(DirectiveChar(d), r);
  }

  /** The step of RenderSegmentIgnoresSpacing for a character that starts neither a space run nor a directive. */
  lemma {:induction false} IgnoresSpacingLiteral(e: HistoryEntry, c: char, r: string)
    requires !(c == ' ' && |r| > 0 && r[0] == ' ')
    requires !(c == '%' && |r| > 0 && ParseDirective(r[0]).Some?)
    requires RenderSegment(e, r) == RenderSegment(e, Collapse(r))
    ensures RenderSegment(e, [c] + r) == RenderSegment(e, Collapse([c] + r))
  {
    CollapseCons(c, r);
    CollapseNormalises(r);
    SubstituteLiteralCons(e, c, r);
    SubstituteLiteralCons(e, c, Collapse(r));
    CollapseCongruence([c], Substitute(e, r));
    CollapseCongruence([c], Substitute(e, Collapse(r)));
  }

  /** Templates that differ only in the lengths of their space runs render alike. */
  lemma {:induction false} SpacingInsensitive(e: HistoryEntry, t1: string, t2: string)
    requires Collapse(t1) == Collapse(t2)
    ensures Render(e, t1) == Render(e, t2)
  {
    RenderInOnePass(e, t1);
    RenderInOnePass(e, t2);
    RenderSegmentIgnoresSpacing(e, t1);
    RenderSegmentIgnoresSpacing(e, t2);
  }

  /** A leading run of spaces becomes one space in front of the substituted text. */
  lemma {:induction false} RenderLeadingSpaces(e: HistoryEntry, n: nat, t: string)
    requires n >= 1
    ensures Render(e, Spaces(n) + t) == Collapse(" " + Substitute(e, t))
  {
    assert Render(e, Spaces(n) + t) == Render(e, " " + t) by {
      CollapseSpaceRun([], n, t);
      assert [] + Spaces(n) + t == Spaces(n) + t && [] + " " + t == " " + t;
      SpacingInsensitive(e, Spaces(n) + t, " " + t);
    }
    RenderInOnePass(e, " " + t);
    SubstituteLiteralCons(e, ' ', t);
  }

  /** A trailing run of spaces becomes one space behind the substituted text. */
  lemma {:induction false} RenderTrailingSpaces(e: HistoryEntry, n: nat, t: string)
    requires n >= 1
    ensures Render(e, t + Spaces(n)) == Collapse(Substitute(e, t) + " ")
  {
    assert Render(e, t + Spaces(n)) == Render(e, t + " ") by {
      CollapseSpaceRun(t, n, []);
      assert t + Spaces(n) + [] == t + Spaces(n) && t + " " + [] == t + " ";
      SpacingInsensitive(e, t + Spaces(n), t + " ");
    }
    RenderInOnePass(e, t + " ");
    SubstituteSeparator(e, t, ' ', []);
    assert t + [' '] + [] == t + " ";
    assert Substitute(e, []) == [];
    assert Substitute(e, t) + [' '] + [] == Substitute(e, t) + " ";
  }

  /**
   * `%r` for an entry without results leaves nothing behind: the spaces on
   * either side of it merge into one.
   */
  lemma {:induction false} ResultsOmittedWithoutResults(e: HistoryEntry, a: string, b: string)
    requires e.resultCount == 0
    ensures Render(e, a + " %r " + b) == Render(e, a + " " + b)
  {
    var sa, sb := Substitute(e, a), Substitute(e, b);
    assert a + " %r " + b == a + [' '] + ['%', DirectiveChar(Results)] + ([' '] + b);
    DirectiveAfterSeparator(e, a, ' ', Results, [' '] + b);
    SubstituteLiteralCons(e, ' ', b);
    SubstituteSeparator(e, a, ' ', b);
    assert a + " " + b == a + [' '] + b;
    assert sa + [' '] + "" + ([' '] + sb) == sa + [' ', ' '] + sb;
    CollapseSqueeze(sa, sb);
    RenderInOnePass(e, a + " %r " + b);
    RenderInOnePass(e, a + " " + b);
  }

  /** `%r` for an entry with results becomes "(N results)". */
  lemma {:induction false} ResultsShownWithResults(e: HistoryEntry, a: string, b: string)
    requires e.resultCount > 0
    ensures Substitute(e, a + " %r " + b) == Substitute(e, a) + " " + ResultsText(e.resultCount) + " " + Substitute(e, b)
  {
    assert a + " %r " + b == a + [' '] + ['%', DirectiveChar(Results)] + ([' '] + b);
    DirectiveAfterSeparator(e, a, ' ', Results, [' '] + b);
    SubstituteLiteralCons(e, ' ', b);
  }

  /** `%%` is a single literal percent sign for every entry. */
  lemma {:induction false} PercentIsLiteral(e: HistoryEntry, a: string, c: char, b: string)
    requires ParseDirective(c).None?
    ensures Substitute(e, a + [c] + "%%" + b) == Substitute(e, a) + [c] + "%" + Substitute(e, b)
  {
    DirectiveAfterSeparator(e, a, c, Percent, b);
  }
}
