/**
 * The whitespace-normalisation pass of the label renderer: every run of two
 * or more spaces becomes a single space, at the start, in the middle and at
 * the end of the text alike.
 */
module Whitespace {

  /** No two adjacent spaces. */
  predicate NoDoubleSpace(s: string) {
    forall i, j :: 0 <= i < |s| && j == i + 1 && j < |s| ==> !(s[i] == ' ' && s[j] == ' ')
  }

  /** The characters of `s` other than spaces, in order. */
  function NonSpaces(s: string): string {
    if s == [] then [] else (if s[0] == ' ' then [] else [s[0]]) + NonSpaces(s[1..])
  }

  /** Replaces every run of spaces by a single space. */
  function Collapse(s: string): string {
    if s == [] then []
    else if s[0] == ' ' && |s| > 1 && s[1] == ' ' then Collapse(s[1..])
    else [s[0]] + Collapse(s[1..])
  }

  /** One step of Collapse, for a text given as its first character and the rest. */
  lemma {:induction false} CollapseCons(c: char, t: string)
    ensures Collapse([c] + t) == if c == ' ' && |t| > 0 && t[0] == ' ' then Collapse(t) else [c] + Collapse(t)
  {
    assert ([c] + t)[1..] == t;
  }

  /**
   * The result holds no double space and is no longer than the input; it is
   * empty only for empty input, and it starts and ends with the input's first
   * and last characters, so a leading or trailing run of spaces becomes exactly
   * one space rather than being stripped.
   */
  lemma {:induction false} CollapseNormalises(s: string)
    ensures NoDoubleSpace(Collapse(s))
    ensures |Collapse(s)| <= |s|
    ensures |s| > 0 ==> |Collapse(s)| > 0 && Collapse(s)[0] == s[0] && Collapse(s)[|Collapse(s)| - 1] == s[|s| - 1]
  {
    if s != [] {
      CollapseNormalises(s[1..]);
      CollapseCons(s[0], s[1..]);
      assert s == [s[0]] + s[1..];
    }
  }

  /** Normalisation removes spaces only: every other character survives, in order. */
  lemma {:induction false} CollapseKeepsNonSpaces(s: string)
    ensures NonSpaces(Collapse(s)) == NonSpaces(s)
  {
    if s != [] {
      CollapseKeepsNonSpaces(s[1..]);
      CollapseCons(s[0], s[1..]);
      assert s == [s[0]] + s[1..];
      assert ([s[0]] + Collapse(s[1..]))[1..] == Collapse(s[1..]);
    }
  }

  /** Text that is already normalised is left alone. */
  lemma {:induction false} CollapseFixesNormal(s: string)
    requires NoDoubleSpace(s)
    ensures Collapse(s) == s
  {
    if s != [] {
      CollapseFixesNormal(s[1..]);
    }
  }

  /** Normalisation leaves a text unchanged exactly when it holds no double space. */
  lemma {:induction false} CollapseUnchangedIff(s: string)
    ensures Collapse(s) == s <==> NoDoubleSpace(s)
  {
    CollapseNormalises(s);
    if NoDoubleSpace(s) {
      CollapseFixesNormal(s);
    }
  }

  /** Normalising twice is the same as normalising once. */
  lemma {:induction false} CollapseIdempotent(s: string)
    ensures Collapse(Collapse(s)) == Collapse(s)
  {
    CollapseNormalises(s);
    CollapseFixesNormal(Collapse(s));
  }

  /** Two texts that do not meet in a pair of spaces normalise independently. */
  lemma {:induction false} CollapseAppend(p: string, q: string)
    requires !(|p| > 0 && |q| > 0 && p[|p| - 1] == ' ' && q[0] == ' ')
    ensures Collapse(p + q) == Collapse(p) + Collapse(q)
  {
    if p == [] {
      assert p + q == q;
    } else if |p| == 1 {
      assert p + q == [p[0]] + q;
      CollapseCons(p[0], q);
    } else {
      var p' := p[1..];
      assert p'[|p'| - 1] == p[|p| - 1];
      CollapseAppend(p', q);
      calc {
        Collapse(p + q);
        == { assert p + q == [p[0]] + (p' + q); }
        Collapse([p[0]] + (p' + q));
        == { CollapseConsAppend(p[0], p', q); }
        Collapse([p[0]] + p') + Collapse(q);
        == { assert p == [p[0]] + p'; }
        Collapse(p) + Collapse(q);
      }
    }
  }

  /** The inductive step of CollapseAppend: prefixing one character keeps the split. */
  lemma {:induction false} CollapseConsAppend(c: char, p: string, q: string)
    requires p != []
    requires Collapse(p + q) == Collapse(p) + Collapse(q)
    ensures Collapse([c] + (p + q)) == Collapse([c] + p) + Collapse(q)
  {
    var pq, merge := p + q, c == ' ' && p[0] == ' ';
    assert Collapse([c] + pq) == if merge then Collapse(pq) else [c] + Collapse(pq) by {
      CollapseCons(c, pq);
      assert pq[0] == p[0];
    }
    assert Collapse([c] + p) == if merge then Collapse(p) else [c] + Collapse(p) by {
      CollapseCons(c, p);
    }
    if !merge {
      assert [c] + (Collapse(p) + Collapse(q)) == ([c] + Collapse(p)) + Collapse(q);
    }
  }

  /** A double space anywhere normalises like a single one. */
  lemma {:induction false} CollapseSqueeze(p: string, q: string)
    ensures Collapse(p + [' ', ' '] + q) == Collapse(p + [' '] + q)
  {
    if p == [] {
      assert p + [' ', ' '] + q == [' '] + ([' '] + q);
      assert p + [' '] + q == [' '] + q;
      CollapseCons(' ', [' '] + q);
    } else {
      var c, p' := p[0], p[1..];
      assert p + [' ', ' '] + q == [c] + (p' + [' ', ' '] + q);
      assert p + [' '] + q == [c] + (p' + [' '] + q);
      CollapseSqueeze(p', q);
      CollapseCons(c, p' + [' ', ' '] + q);
      CollapseCons(c, p' + [' '] + q);
    }
  }

  /** Normalising a suffix first does not change the normal form of the whole. */
  lemma {:induction false} CollapseCongruence(p: string, q: string)
    ensures Collapse(p + q) == Collapse(p + Collapse(q))
  {
    var cq := Collapse(q);
    if p == [] {
      assert p + q == q && p + cq == cq;
      CollapseIdempotent(q);
    } else {
      var c, p' := p[0], p[1..];
      assert p + q == [c] + (p' + q);
      assert p + cq == [c] + (p' + cq);
      CollapseCongruence(p', q);
      if p' == [] {
        assert p' + q == q && p' + cq == cq;
        CollapseNormalises(q);
        CollapseIdempotent(q);
      } else {
        assert (p' + q)[0] == p'[0] == (p' + cq)[0];
      }
      CollapseConsAlike(c, p' + q, p' + cq);
    }
  }

  /** Prefixing one character to two texts with the same normal form and the same first character. */
  lemma {:induction false} CollapseConsAlike(c: char, x: string, y: string)
    requires Collapse(x) == Collapse(y)
    requires |x| > 0 <==> |y| > 0
    requires |x| > 0 ==> x[0] == y[0]
    ensures Collapse([c] + x) == Collapse([c] + y)
  {
    CollapseCons(c, x);
    CollapseCons(c, y);
  }

  // ---------------------------------------------------------------------
  // Words joined by single spaces

  /** The words joined by single spaces. */
  function Words(ws: seq<string>): string {
    if |ws| == 0 then [] else if |ws| == 1 then ws[0] else ws[0] + " " + Words(ws[1..])
  }

  /** A word as a label holds it: no space at either end and no double space (it may be empty). */
  predicate PlainWord(w: string) {
    NoDoubleSpace(w) && (|w| > 0 ==> w[0] != ' ' && w[|w| - 1] != ' ')
  }

  /** The non-empty words, in order. */
  function NonEmptyWords(ws: seq<string>): seq<string> {
    if ws == [] then [] else (if ws[0] == [] then [] else [ws[0]]) + NonEmptyWords(ws[1..])
  }

  lemma {:induction false} WordsAppend(a: seq<string>, b: seq<string>)
    requires |a| > 0 && |b| > 0
    ensures Words(a + b) == Words(a) + " " + Words(b)
  {
    if |a| == 1 {
      assert (a + b)[1..] == b;
    } else {
      assert (a + b)[1..] == a[1..] + b;
      WordsAppend(a[1..], b);
    }
  }

  /** Plain non-empty words joined by single spaces make a plain non-empty text. */
  lemma {:induction false} WordsArePlain(ws: seq<string>)
    requires |ws| > 0
    requires forall i :: 0 <= i < |ws| ==> PlainWord(ws[i]) && ws[i] != []
    ensures PlainWord(Words(ws)) && Words(ws) != []
    ensures Words(ws)[0] == ws[0][0]
  {
    if |ws| > 1 {
      var w, rest := ws[0], Words(ws[1..]);
      WordsArePlain(ws[1..]);
      CollapseFixesNormal(w);
      CollapseFixesNormal(rest);
      CollapseAppend(w, " ");
      CollapseAppend(w + " ", rest);
      assert Collapse(" ") == " ";
      CollapseNormalises(w + " " + rest);
    }
  }

  /** A plain word followed by a space is a normalised text. */
  lemma {:induction false} SpaceAfterPlainWord(w: string)
    requires PlainWord(w) && w != []
    ensures Collapse(w + " ") == w + " "
  {
    CollapseFixesNormal(w);
    CollapseAppend(w, " ");
    assert Collapse(" ") == " ";
  }

  /**
   * Joining plain words and normalising drops the empty ones without a trace:
   * the spaces around an empty word merge into one.
   */
  lemma {:induction false} CollapseWords(ws: seq<string>)
    requires |ws| > 0 && ws[0] != [] && ws[|ws| - 1] != []
    requires forall i :: 0 <= i < |ws| ==> PlainWord(ws[i])
    ensures Collapse(Words(ws)) == Words(NonEmptyWords(ws))
    decreases |ws|
  {
    var w := ws[0];
    if |ws| == 1 {
      CollapseFixesNormal(w);
      assert NonEmptyWords(ws[1..]) == [];
    } else if ws[1] == [] {
      var ws' := [w] + ws[2..];
      DropEmptySecondWord(ws);
      CollapseWords(ws');
    } else {
      var rest := ws[1..];
      CollapseWords(rest);
      assert Collapse(Words(ws)) == w + " " + Collapse(Words(rest)) by {
        WordsTail(rest);
        SpaceAfterPlainWord(w);
        CollapseAppend(w + " ", Words(rest));
      }
      assert NonEmptyWords(rest) == [rest[0]] + NonEmptyWords(rest[1..]);
      assert NonEmptyWords(ws) == [w] + NonEmptyWords(rest);
    }
  }

  /** An empty second word leaves two spaces, which normalise as one. */
  lemma {:induction false} DropEmptySecondWord(ws: seq<string>)
    requires |ws| > 2 && ws[1] == []
    ensures Collapse(Words(ws)) == Collapse(Words([ws[0]] + ws[2..]))
    ensures NonEmptyWords(ws) == NonEmptyWords([ws[0]] + ws[2..])
  {
    assert ws == [ws[0]] + ([[]] + ws[2..]);
    DropEmptyWordCollapse(ws[0], ws[2..]);
    DropEmptyWordNonEmpty(ws[0], ws[2..]);
  }

  /** The joined text of a word, an empty word and more words normalises as if the empty one were absent. */
  lemma {:induction false} DropEmptyWordCollapse(w: string, rest: seq<string>)
    requires |rest| > 0
    ensures Collapse(Words([w] + ([[]] + rest))) == Collapse(Words([w] + rest))
  {
    calc {
      Collapse(Words([w] + ([[]] + rest)));
      == { WordsEmptySecond(w, rest); }
      Collapse(w + [' ', ' '] + Words(rest));
      == { CollapseSqueeze(w, Words(rest)); }
      Collapse(w + [' '] + Words(rest));
      == { WordsCons(w, rest); }
      Collapse(Words([w] + rest));
    }
  }

  /** An empty second word leaves two spaces between its neighbours. */
  lemma {:induction false} WordsEmptySecond(w: string, rest: seq<string>)
    requires |rest| > 0
    ensures Words([w] + ([[]] + rest)) == w + [' ', ' '] + Words(rest)
  {
    calc {
      Words([w] + ([[]] + rest));
      == { WordsCons(w, [[]] + rest); }
      w + " " + Words([[]] + rest);
      == { WordsCons([], rest); }
      w + " " + ([] + " " + Words(rest));
      == { assert [] + " " + Words(rest) == [' '] + Words(rest); }
      w + [' ', ' '] + Words(rest);
    }
  }

  /** Dropping an empty second word does not change the non-empty words. */
  lemma {:induction false} DropEmptyWordNonEmpty(w: string, rest: seq<string>)
    ensures NonEmptyWords([w] + ([[]] + rest)) == NonEmptyWords([w] + rest)
  {
    assert ([w] + rest)[1..] == rest;
    assert ([w] + ([[]] + rest))[1..] == [[]] + rest;
    assert ([[]] + rest)[1..] == rest;
  }

  /** A word followed by more words is joined to them by one space. */
  lemma {:induction false} WordsCons(w: string, ws: seq<string>)
    requires |ws| > 0
    ensures Words([w] + ws) == w + " " + Words(ws)
  {
    assert ([w] + ws)[1..] == ws;
  }

  /** The joined words start with the first word's first character. */
  lemma {:induction false} WordsTail(ws: seq<string>)
    requires |ws| > 0 && ws[0] != []
    ensures Words(ws) != [] && Words(ws)[0] == ws[0][0]
  {
  }

  /** A text without spaces is plain. */
  lemma {:induction false} SpacelessIsPlain(w: string)
    requires ' ' !in w
    ensures PlainWord(w)
  {
    if |w| >= 2 {
      assert ' ' !in w[1..] by {
        assert forall k :: 0 <= k < |w[1..]| ==> w[1..][k] == w[k + 1];
      }
      SpacelessIsPlain(w[1..]);
    }
  }

  /** Two words without spaces joined by one space make a plain text. */
  lemma {:induction false} TwoWordsArePlain(a: string, b: string)
    requires a != [] && b != [] && ' ' !in a && ' ' !in b
    ensures PlainWord(a + " " + b)
  {
    SpacelessIsPlain(a);
    SpacelessIsPlain(b);
    WordsArePlain([a, b]);
    assert [a, b][1..] == [b];
  }

  /** A plain word after one space is already normal. */
  lemma {:induction false} SpaceBeforePlainWord(w: string)
    requires PlainWord(w) && w != []
    ensures Collapse(" " + w) == " " + w
  {
    assert NoDoubleSpace(" " + w) by {
      assert (" " + w)[1..] == w;
    }
    CollapseFixesNormal(" " + w);
  }

  /** A run of `n` spaces. */
  function Spaces(n: nat): (r: string)
    ensures |r| == n && forall i :: 0 <= i < n ==> r[i] == ' '
  {
    if n == 0 then [] else [' '] + Spaces(n - 1)
  }

  /** Any run of at least one space normalises as a single space does. */
  lemma {:induction false} CollapseSpaceRun(p: string, n: nat, q: string)
    requires n >= 1
    ensures Collapse(p + Spaces(n) + q) == Collapse(p + " " + q)
  {
    if n > 1 {
      assert p + Spaces(n) + q == p + [' ', ' '] + (Spaces(n - 2) + q);
      CollapseSqueeze(p, Spaces(n - 2) + q);
      assert p + [' '] + (Spaces(n - 2) + q) == p + Spaces(n - 1) + q;
      CollapseSpaceRun(p, n - 1, q);
    } else {
      assert Spaces(1) == " ";
    }
  }

  /** Words separated by runs of spaces, the i-th run `gaps[i]` long. */
  function Spaced(ws: seq<string>, gaps: seq<nat>): string
    requires |gaps| + 1 == |ws|
  {
    if |ws| == 1 then ws[0] else ws[0] + Spaces(gaps[0]) + Spaced(ws[1..], gaps[1..])
  }

  /** One step of Spaced, for a word list given as its first word and the rest. */
  lemma {:induction false} SpacedCons(w: string, ws: seq<string>, g: nat, gs: seq<nat>)
    requires |gs| + 1 == |ws|
    ensures Spaced([w] + ws, [g] + gs) == w + Spaces(g) + Spaced(ws, gs)
  {
    assert ([w] + ws)[1..] == ws && ([g] + gs)[1..] == gs;
  }

  /** Words separated by runs of spaces normalise as the words separated by single spaces do. */
  lemma {:induction false} CollapseSpaced(ws: seq<string>, gaps: seq<nat>)
    requires |gaps| + 1 == |ws|
    requires forall i :: 0 <= i < |gaps| ==> gaps[i] >= 1
    ensures Collapse(Spaced(ws, gaps)) == Collapse(Words(ws))
  {
    if |ws| > 1 {
      var w, g, rest := ws[0], gaps[0], Spaced(ws[1..], gaps[1..]);
      CollapseSpaced(ws[1..], gaps[1..]);
      CollapseCongruence(w + Spaces(g), rest);
      CollapseCongruence(w + Spaces(g), Words(ws[1..]));
      CollapseSpaceRun(w, g, Words(ws[1..]));
    }
  }
}
