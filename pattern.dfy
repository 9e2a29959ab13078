// The shape of the anchored regular expressions the log parsers use: a
// start anchor, then capture groups, each a run of one character class and
// each followed by a literal, and then anything at all. Every group's
// literal starts with a character outside that group's class, so a greedy
// group can stop nowhere but at its first character outside the class and
// no backtracking can produce another match. A left-to-right scanner
// therefore finds exactly the matches, and the captures, of the expression.
module Pattern {
  import opened Common
  import opened Text

  /** The classes used by the log expressions: `\S`, `[^c]`, `\d`, `\w` and `.`. */
  datatype CharClass = NonWhitespace | Except(c: char) | Digit | Word | NotLineTerminator

  predicate InClass(k: CharClass, c: char)
  {
    match k
    case NonWhitespace => !IsWhitespace(c)
    case Except(x) => c != x
    case Digit => IsDigit(c)
    case Word => IsWordChar(c)
    case NotLineTerminator => !IsLineTerminator(c)
  }

  predicate AllIn(k: CharClass, s: string)
  {
    forall i :: 0 <= i < |s| ==> InClass(k, s[i])
  }

  /** A capture group `(k+)` (when `nonEmpty`) or `(k*)`, then the literal `follow`. */
  datatype Group = Group(cls: CharClass, nonEmpty: bool, follow: string)

  /** Each literal starts with a character its group's class refuses. */
  predicate Unambiguous(p: seq<Group>)
  {
    forall i :: 0 <= i < |p| ==> |p[i].follow| > 0 && !InClass(p[i].cls, p[i].follow[0])
  }

  /** The length of the longest prefix of `s` inside the class: how far a greedy group reaches. */
  function Span(s: string, k: CharClass): (n: nat)
    ensures n <= |s| && AllIn(k, s[..n])
    ensures n < |s| ==> !InClass(k, s[n])
  {
    if |s| == 0 || !InClass(k, s[0]) then 0
    else
      var m := Span(s[1..], k);
      assert s[..m + 1] == [s[0]] + s[1..][..m];
      m + 1
  }

  /** A greedy group stops exactly where a run inside the class is followed by a character outside it. */
  lemma {:induction false} SpanOfRun(g: string, rest: string, k: CharClass)
    requires AllIn(k, g)
    requires rest == [] || !InClass(k, rest[0])
    ensures Span(g + rest, k) == |g|
  {
    if g == [] {
      assert g + rest == rest;
    } else {
      assert (g + rest)[0] == g[0];
      assert (g + rest)[1..] == g[1..] + rest;
      SpanOfRun(g[1..], rest, k);
    }
  }

  /**
   * The captures of the anchored expression `p` on `s`, or None when it
   * does not match. Text after the last literal is ignored.
   */
  function Match(p: seq<Group>, s: string): (r: Option<seq<string>>)
    ensures r.Some? ==> |r.value| == |p|
  {
    if p == [] then Some([])
    else
      var n := Span(s, p[0].cls);
      var rest := s[n..];
      if (p[0].nonEmpty && n == 0) || !(p[0].follow <= rest) then None
      else
        match Match(p[1..], rest[|p[0].follow|..])
        case None => None
        case Some(gs) => Some([s[..n]] + gs)
  }

  /** The text the expression consumes when its groups capture `gs`. */
  function Render(p: seq<Group>, gs: seq<string>): string
    requires |gs| == |p|
  {
    if p == [] then "" else gs[0] + p[0].follow + Render(p[1..], gs[1..])
  }

  /** `gs` are captures the groups of `p` could make. */
  predicate Fits(p: seq<Group>, gs: seq<string>)
  {
    |gs| == |p|
    && forall i :: 0 <= i < |p| ==> AllIn(p[i].cls, gs[i]) && (p[i].nonEmpty ==> gs[i] != "")
  }

  /** `s` matches the expression: some admissible captures render to a prefix of it. */
  ghost predicate Matches(p: seq<Group>, s: string)
  {
    exists gs :: Fits(p, gs) && Render(p, gs) <= s
  }

  /** Rendering admissible captures and appending anything gives back those captures. */
  lemma {:induction false} MatchRender(p: seq<Group>, gs: seq<string>, tail: string)
    requires Unambiguous(p) && Fits(p, gs)
    ensures Match(p, Render(p, gs) + tail) == Some(gs)
  {
    if p != [] {
      var f := p[0].follow;
      var later := Render(p[1..], gs[1..]) + tail;
      var s := Render(p, gs) + tail;
      assert s == gs[0] + (f + later);
      assert (f + later)[0] == f[0];
      SpanOfRun(gs[0], f + later, p[0].cls);
      assert s[|gs[0]|..] == f + later;
      assert s[..|gs[0]|] == gs[0];
      assert (f + later)[|f|..] == later;
      assert Unambiguous(p[1..]) by {
        forall i | 0 <= i < |p[1..]| ensures |p[1..][i].follow| > 0 && !InClass(p[1..][i].cls, p[1..][i].follow[0]) {
          assert p[1..][i] == p[i + 1];
        }
      }
      assert Fits(p[1..], gs[1..]) by {
        forall i | 0 <= i < |p[1..]|
          ensures AllIn(p[1..][i].cls, gs[1..][i]) && (p[1..][i].nonEmpty ==> gs[1..][i] != "")
        {
          assert p[1..][i] == p[i + 1] && gs[1..][i] == gs[i + 1];
        }
      }
      MatchRender(p[1..], gs[1..], tail);
      assert [gs[0]] + gs[1..] == gs;
    }
  }

  /** What the scanner captures is admissible and renders to a prefix of the line. */
  lemma {:induction false} MatchSound(p: seq<Group>, s: string)
    requires Match(p, s).Some?
    ensures Fits(p, Match(p, s).value) && Render(p, Match(p, s).value) <= s
  {
    if p != [] {
      var n := Span(s, p[0].cls);
      var rest := s[n..];
      var f := p[0].follow;
      var after := rest[|f|..];
      MatchSound(p[1..], after);
      var gs' := Match(p[1..], after).value;
      var gs := Match(p, s).value;
      assert gs == [s[..n]] + gs';
      assert gs[1..] == gs';
      assert Render(p, gs) == s[..n] + f + Render(p[1..], gs');
      assert s == s[..n] + f + after;
      forall i | 0 <= i < |p| ensures AllIn(p[i].cls, gs[i]) && (p[i].nonEmpty ==> gs[i] != "") {
        if i > 0 {
          assert p[i] == p[1..][i - 1] && gs[i] == gs'[i - 1];
        }
      }
    }
  }

  /**
   * The scanner is exact for an unambiguous expression: it succeeds on
   * precisely the lines that match, and then returns the only admissible
   * captures that render to a prefix of the line.
   */
  lemma MatchExact(p: seq<Group>, s: string)
    requires Unambiguous(p)
    ensures Match(p, s).Some? <==> Matches(p, s)
    ensures forall gs :: Fits(p, gs) && Render(p, gs) <= s ==> Match(p, s) == Some(gs)
  {
    if Match(p, s).Some? {
      MatchSound(p, s);
    }
    forall gs | Fits(p, gs) && Render(p, gs) <= s ensures Match(p, s) == Some(gs) {
      var r := Render(p, gs);
      assert s == r + s[|r|..];
      MatchRender(p, gs, s[|r|..]);
    }
  }

  /** A rendering ends with the last character of the last literal. */
  lemma {:induction false} RenderEndsWithLastLiteral(p: seq<Group>, gs: seq<string>)
    requires |gs| == |p| && p != [] && p[|p| - 1].follow != []
    ensures var s := Render(p, gs); var f := p[|p| - 1].follow;
      |s| >= |f| && s[|s| - 1] == f[|f| - 1]
  {
    if |p| > 1 {
      RenderEndsWithLastLiteral(p[1..], gs[1..]);
    }
  }
}
