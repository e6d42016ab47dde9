/** `cbc.parse`: reading a function's declaration, its `///` documentation
    comment and its parameter list out of the function's source text, and
    rendering the result as help text. */
module CbcParse {
  import opened Js
  import opened Strings
  import CbcAssert

  // ------------------------------------------------------------------
  // Declaration patterns

  predicate IsNameChar(c: char) { !IsSpace(c) && c != '(' }

  predicate IsNotSpace(c: char) { !IsSpace(c) }

  predicate IsNotCloseParen(c: char) { c != ')' }

  /** All of `s[i..j]` satisfies `p`. */
  predicate Run(s: string, i: nat, j: nat, p: char -> bool)
    requires i <= j <= |s|
  {
    forall k :: i <= k < j ==> p(s[k])
  }

  /** What a declaration pattern captures: the name (group 1), the raw
      parameter text (group 2), and where the match ends. */
  datatype Declaration = Declaration(name: string, params: string, end: nat)

  /** The tail `\(([^)]*)` once the `(` is found at `open`. */
  function ParamsAt(s: string, open: nat): (r: Declaration)
    requires open < |s| && s[open] == '('
    ensures open < r.end <= |s|
  {
    var e := Span(s, open + 1, IsNotCloseParen);
    Declaration("", s[open + 1..e], e)
  }

  /** `funcPattern`, `^\s*function\s*([^\s(]*)\s*\(([^)]*)`, as a greedy scan. */
  function FuncPattern(s: string): (r: Option<Declaration>)
    ensures r.Some? ==> r.value.end <= |s|
  {
    var a := Span(s, 0, IsSpace);
    if !StartsWith(s[a..], "function") then None
    else
      var b := Span(s, a + 8, IsSpace);
      var c := Span(s, b, IsNameChar);
      var d := Span(s, c, IsSpace);
      if d < |s| && s[d] == '(' then
        var t := ParamsAt(s, d);
        Some(Declaration(s[b..c], t.params, t.end))
      else
        None
  }

  /** A match of `funcPattern` read off the regular expression: leading
      whitespace up to `a`, `function`, whitespace up to `b`, the name up to
      `c`, whitespace up to the `(` at `d`, parameters up to `e`. */
  predicate KeywordForm(s: string, a: nat, b: nat, c: nat, d: nat, e: nat)
  {
    && a + 8 <= b <= c <= d < e <= |s|
    && Run(s, 0, a, IsSpace) && s[a..a + 8] == "function"
    && Run(s, a + 8, b, IsSpace) && Run(s, b, c, IsNameChar) && Run(s, c, d, IsSpace)
    && s[d] == '(' && Run(s, d + 1, e, IsNotCloseParen) && (e == |s| || s[e] == ')')
  }

  /** `FuncPattern` from the values of its four runs. */
  lemma FuncPatternFromRuns(s: string, a: nat, b: nat, c: nat, d: nat, e: nat)
    requires a + 8 <= b <= c <= d < e <= |s| && s[d] == '('
    requires Span(s, 0, IsSpace) == a && StartsWith(s[a..], "function")
    requires Span(s, a + 8, IsSpace) == b && Span(s, b, IsNameChar) == c && Span(s, c, IsSpace) == d
    requires ParamsAt(s, d) == Declaration("", s[d + 1..e], e)
    ensures FuncPattern(s) == Some(Declaration(s[b..c], s[d + 1..e], e))
  {
  }

  /** Whitespace from `i` up to `a` and then `function`. */
  lemma KeywordAt(s: string, i: nat, a: nat)
    requires i <= a && a + 8 <= |s| && Run(s, i, a, IsSpace) && s[a..a + 8] == "function"
    ensures Span(s, i, IsSpace) == a && StartsWith(s[a..], "function")
  {
    assert s[a] == s[a..a + 8][0];
    SpanIs(s, i, IsSpace, a);
    assert s[a..][..8] == s[a..a + 8];
  }

  /** Whitespace from `i` up to something else at `e`. */
  lemma SpaceUpTo(s: string, i: nat, e: nat)
    requires i <= e < |s| && Run(s, i, e, IsSpace) && !IsSpace(s[e])
    ensures Span(s, i, IsSpace) == e
  {
    SpanIs(s, i, IsSpace, e);
  }

  /** The runs after `function` when the name is not empty. */
  lemma KeywordNamedRuns(s: string, a8: nat, b: nat, c: nat, d: nat)
    requires a8 <= b < c <= d < |s| && s[d] == '('
    requires Run(s, a8, b, IsSpace) && Run(s, b, c, IsNameChar) && Run(s, c, d, IsSpace)
    ensures Span(s, a8, IsSpace) == b && Span(s, b, IsNameChar) == c && Span(s, c, IsSpace) == d
  {
    SpanIs(s, a8, IsSpace, b);
    SpanIs(s, b, IsNameChar, c);
    SpanIs(s, c, IsSpace, d);
  }

  /** The runs after `function` when the name is empty: one run of
      whitespace up to the `(`. */
  lemma KeywordUnnamedRuns(s: string, a8: nat, b: nat, d: nat)
    requires a8 <= b <= d < |s| && s[d] == '('
    requires Run(s, a8, b, IsSpace) && Run(s, b, d, IsSpace)
    ensures Span(s, a8, IsSpace) == d && Span(s, d, IsNameChar) == d && Span(s, d, IsSpace) == d
  {
    SpanIs(s, a8, IsSpace, d);
    SpanIs(s, d, IsNameChar, d);
    SpanIs(s, d, IsSpace, d);
  }

  /** The parameters run from after the `(` to the first `)`. */
  lemma ParamsRun(s: string, d: nat, e: nat)
    requires d < e <= |s| && s[d] == '('
    requires Run(s, d + 1, e, IsNotCloseParen) && (e == |s| || s[e] == ')')
    ensures ParamsAt(s, d) == Declaration("", s[d + 1..e], e)
  {
    SpanIs(s, d + 1, IsNotCloseParen, e);
  }

  /** Every way the regular expression can match captures what the scan
      captures. */
  lemma FuncPatternMatches(s: string, a: nat, b: nat, c: nat, d: nat, e: nat)
    requires KeywordForm(s, a, b, c, d, e)
    ensures FuncPattern(s) == Some(Declaration(s[b..c], s[d + 1..e], e))
  {
    KeywordAt(s, 0, a);
    ParamsRun(s, d, e);
    if b < c {
      KeywordNamedRuns(s, a + 8, b, c, d);
      FuncPatternFromRuns(s, a, b, c, d, e);
    } else {
      KeywordUnnamedRuns(s, a + 8, b, d);
      FuncPatternFromRuns(s, a, d, d, d, e);
      assert s[d..d] == s[b..c];
    }
  }

  /** The positions of the match the scan found. */
  lemma FuncPatternWitness(s: string) returns (a: nat, b: nat, c: nat, d: nat)
    requires FuncPattern(s).Some?
    ensures KeywordForm(s, a, b, c, d, FuncPattern(s).value.end)
    ensures FuncPattern(s).value.name == s[b..c] && FuncPattern(s).value.params == s[d + 1..FuncPattern(s).value.end]
  {
    var e;
    a, b, c, d, e := FuncPatternRuns(s);
    KeywordFormOfRuns(s, a, b, c, d, e);
  }

  /** The ends of the runs `FuncPattern` scanned, when it found a match. */
  lemma FuncPatternRuns(s: string) returns (a: nat, b: nat, c: nat, d: nat, e: nat)
    requires FuncPattern(s).Some?
    ensures a + 8 <= b <= c <= d < e <= |s| && s[a..a + 8] == "function" && s[d] == '('
    ensures a == Span(s, 0, IsSpace) && b == Span(s, a + 8, IsSpace) && c == Span(s, b, IsNameChar)
    ensures d == Span(s, c, IsSpace) && e == Span(s, d + 1, IsNotCloseParen)
    ensures FuncPattern(s).value == Declaration(s[b..c], s[d + 1..e], e)
  {
    a := Span(s, 0, IsSpace);
    b, c, d := FuncPatternShape(s, a);
    KeywordText(s, a);
    e := Span(s, d + 1, IsNotCloseParen);
  }

  /** What `FuncPattern` checked on its way to a match. */
  lemma FuncPatternShape(s: string, a: nat) returns (b: nat, c: nat, d: nat)
    requires FuncPattern(s).Some? && a == Span(s, 0, IsSpace)
    ensures StartsWith(s[a..], "function") && a + 8 <= |s|
    ensures b == Span(s, a + 8, IsSpace) && c == Span(s, b, IsNameChar) && d == Span(s, c, IsSpace)
    ensures d < |s| && s[d] == '('
    ensures FuncPattern(s).value == Declaration(s[b..c], ParamsAt(s, d).params, ParamsAt(s, d).end)
  {
    b := Span(s, a + 8, IsSpace);
    c := Span(s, b, IsNameChar);
    d := Span(s, c, IsSpace);
  }

  /** The keyword the prefix test found. */
  lemma KeywordText(s: string, a: nat)
    requires a <= |s| && StartsWith(s[a..], "function")
    ensures a + 8 <= |s| && s[a..a + 8] == "function"
  {
    assert s[a..][..8] == s[a..a + 8];
  }

  /** Runs that end where the scan's runs end form a match. */
  lemma KeywordFormOfRuns(s: string, a: nat, b: nat, c: nat, d: nat, e: nat)
    requires a + 8 <= b <= c <= d < e <= |s| && s[a..a + 8] == "function" && s[d] == '('
    requires a == Span(s, 0, IsSpace) && b == Span(s, a + 8, IsSpace) && c == Span(s, b, IsNameChar)
    requires d == Span(s, c, IsSpace) && e == Span(s, d + 1, IsNotCloseParen)
    ensures KeywordForm(s, a, b, c, d, e)
  {
    SpanRun(s, 0, IsSpace);
    SpanRun(s, a + 8, IsSpace);
    SpanRun(s, b, IsNameChar);
    SpanRun(s, c, IsSpace);
    SpanRun(s, d + 1, IsNotCloseParen);
  }

  /** The scan finds a match exactly when the regular expression has one,
      and every way the expression can match captures what the scan captures. */
  lemma FuncPatternIsRegex(s: string)
    ensures FuncPattern(s).Some? ==>
      exists a: nat, b: nat, c: nat, d: nat :: (KeywordForm(s, a, b, c, d, FuncPattern(s).value.end)
        && FuncPattern(s).value.name == s[b..c] && FuncPattern(s).value.params == s[d + 1..FuncPattern(s).value.end])
    ensures forall a: nat, b: nat, c: nat, d: nat, e: nat :: KeywordForm(s, a, b, c, d, e) ==>
      FuncPattern(s) == Some(Declaration(s[b..c], s[d + 1..e], e))
  {
    if FuncPattern(s).Some? {
      var a, b, c, d := FuncPatternWitness(s);
    }
    forall a: nat, b: nat, c: nat, d: nat, e: nat | KeywordForm(s, a, b, c, d, e)
      ensures FuncPattern(s) == Some(Declaration(s[b..c], s[d + 1..e], e))
    {
      FuncPatternMatches(s, a, b, c, d, e);
    }
  }

  /** `\s+function\s*\(([^)]*)` from `i`: what follows the colon in
      `funcPattern2`. */
  function AfterColon(s: string, i: nat): (r: Option<Declaration>)
    requires i <= |s|
    ensures r.Some? ==> r.value.end <= |s|
  {
    var k := Span(s, i, IsSpace);
    if k > i && StartsWith(s[k..], "function") then
      var l := Span(s, k + 8, IsSpace);
      if l < |s| && s[l] == '(' then Some(ParamsAt(s, l)) else None
    else
      None
  }

  /** `\s*:` and then `AfterColon`: what follows the name in `funcPattern2`. */
  function AfterName(s: string, i: nat): (r: Option<Declaration>)
    requires i <= |s|
    ensures r.Some? ==> r.value.end <= |s|
  {
    var j := Span(s, i, IsSpace);
    if j < |s| && s[j] == ':' then AfterColon(s, j + 1) else None
  }

  /** `funcPattern2`, `^\s*([^\s]+)\s*:\s+function\s*\(([^)]*)`, as a scan.
      The name is first taken as the whole run of non-whitespace; when that
      fails and the run ends with `:`, the regular expression backtracks to
      the run without its `:`, the only other split that can match. */
  function FuncPattern2(s: string): (r: Option<Declaration>)
    ensures r.Some? ==> r.value.end <= |s|
  {
    var a := Span(s, 0, IsSpace);
    var w := Span(s, a, IsNotSpace);
    if w == a then None
    else
      match AfterName(s, w)
      case Some(t) => Some(Declaration(s[a..w], t.params, t.end))
      case None =>
        if w - a >= 2 && s[w - 1] == ':' then
          match AfterColon(s, w)
          case Some(t) => Some(Declaration(s[a..w - 1], t.params, t.end))
          case None => None
        else
          None
  }

  /** A match of `funcPattern2` read off the regular expression: the name
      `s[a..b]`, whitespace, the `:` at `c`, whitespace, `function` at `d`,
      whitespace, the `(` at `e`, parameters up to `g`. */
  predicate PropertyForm(s: string, a: nat, b: nat, c: nat, d: nat, e: nat, g: nat)
  {
    && a < b <= c && c + 1 < d && d + 8 <= e < g <= |s|
    && Run(s, 0, a, IsSpace) && Run(s, a, b, IsNotSpace) && Run(s, b, c, IsSpace) && s[c] == ':'
    && Run(s, c + 1, d, IsSpace) && s[d..d + 8] == "function" && Run(s, d + 8, e, IsSpace)
    && s[e] == '(' && Run(s, e + 1, g, IsNotCloseParen) && (g == |s| || s[g] == ')')
  }

  /** The scan for the colon part succeeds on any tail the expression accepts. */
  lemma AfterColonForm(s: string, c: nat, d: nat, e: nat, g: nat)
    requires c + 1 < d && d + 8 <= e < g <= |s|
    requires Run(s, c + 1, d, IsSpace) && s[d..d + 8] == "function" && Run(s, d + 8, e, IsSpace)
    requires s[e] == '(' && Run(s, e + 1, g, IsNotCloseParen) && (g == |s| || s[g] == ')')
    ensures AfterColon(s, c + 1) == Some(Declaration("", s[e + 1..g], g))
  {
    KeywordAt(s, c + 1, d);
    SpaceUpTo(s, d + 8, e);
    ParamsRun(s, e, g);
    AfterColonFromRuns(s, c + 1, d, e, g);
  }

  /** `AfterColon` from the values of its runs. */
  lemma AfterColonFromRuns(s: string, i: nat, d: nat, e: nat, g: nat)
    requires i < d && d + 8 <= e < g <= |s| && s[e] == '('
    requires Span(s, i, IsSpace) == d && StartsWith(s[d..], "function") && Span(s, d + 8, IsSpace) == e
    requires ParamsAt(s, e) == Declaration("", s[e + 1..g], g)
    ensures AfterColon(s, i) == Some(Declaration("", s[e + 1..g], g))
  {
  }

  /** Whatever `AfterColon` accepts has the shape the expression describes:
      whitespace up to `d`, `function`, whitespace up to the `(` at `e`. */
  lemma AfterColonShape(s: string, i: nat) returns (d: nat, e: nat)
    requires i <= |s| && AfterColon(s, i).Some?
    ensures var g := AfterColon(s, i).value.end;
      && i < d && d + 8 <= e < g <= |s|
      && Run(s, i, d, IsSpace) && s[d..d + 8] == "function" && Run(s, d + 8, e, IsSpace) && s[e] == '('
      && AfterColon(s, i).value.params == s[e + 1..g]
      && Run(s, e + 1, g, IsNotCloseParen) && (g == |s| || s[g] == ')')
  {
    d := Span(s, i, IsSpace);
    e := Span(s, d + 8, IsSpace);
    assert d > i && StartsWith(s[d..], "function");
    assert s[d..][..8] == s[d..d + 8];
    assert e < |s| && s[e] == '(';
    assert AfterColon(s, i).value == ParamsAt(s, e);
    SpanRun(s, i, IsSpace);
    SpanRun(s, d + 8, IsSpace);
    ParamsAtShape(s, e);
  }

  /** The parameter text runs from after the `(` to the first `)`. */
  lemma ParamsAtShape(s: string, open: nat)
    requires open < |s| && s[open] == '('
    ensures var g := ParamsAt(s, open).end;
      ParamsAt(s, open).params == s[open + 1..g]
      && Run(s, open + 1, g, IsNotCloseParen) && (g == |s| || s[g] == ')')
  {
    SpanRun(s, open + 1, IsNotCloseParen);
  }

  /** `FuncPattern2` when the whole run of non-whitespace is the name. */
  lemma FuncPattern2WholeRun(s: string, a: nat, w: nat, t: Declaration)
    requires a < w <= |s| && Span(s, 0, IsSpace) == a && Span(s, a, IsNotSpace) == w
    requires AfterName(s, w) == Some(t)
    ensures FuncPattern2(s) == Some(Declaration(s[a..w], t.params, t.end))
  {
  }

  /** `FuncPattern2` when the name is the run without its final `:`. */
  lemma FuncPattern2ColonRun(s: string, a: nat, c: nat, t: Declaration)
    requires a < c < |s| && Span(s, 0, IsSpace) == a && Span(s, a, IsNotSpace) == c + 1
    requires AfterName(s, c + 1) == None && s[c] == ':' && AfterColon(s, c + 1) == Some(t)
    ensures FuncPattern2(s) == Some(Declaration(s[a..c], t.params, t.end))
  {
  }

  /** A run of whitespace up to `a` at the start. */
  lemma LeadingSpace(s: string, a: nat)
    requires a < |s| && Run(s, 0, a, IsSpace) && !IsSpace(s[a])
    ensures Span(s, 0, IsSpace) == a
  {
    SpanIs(s, 0, IsSpace, a);
  }

  /** The name ends at whitespace before the `:`. */
  lemma WholeRunName(s: string, a: nat, b: nat, c: nat, t: Declaration)
    requires a < b < c < |s| && s[c] == ':'
    requires Run(s, a, b, IsNotSpace) && Run(s, b, c, IsSpace)
    requires AfterColon(s, c + 1) == Some(t)
    ensures Span(s, a, IsNotSpace) == b && AfterName(s, b) == Some(t)
  {
    NameRun(s, a, b);
    SpaceUpTo(s, b, c);
    AfterNameFromRuns(s, b, c, t);
  }

  /** A run of non-whitespace up to whitespace at `b`. */
  lemma NameRun(s: string, a: nat, b: nat)
    requires a <= b < |s| && Run(s, a, b, IsNotSpace) && IsSpace(s[b])
    ensures Span(s, a, IsNotSpace) == b
  {
    SpanIs(s, a, IsNotSpace, b);
  }

  /** `AfterName` from the value of its run. */
  lemma AfterNameFromRuns(s: string, b: nat, c: nat, t: Declaration)
    requires b <= c < |s| && s[c] == ':' && Span(s, b, IsSpace) == c
    requires AfterColon(s, c + 1) == Some(t)
    ensures AfterName(s, b) == Some(t)
  {
  }

  /** The name runs into the `:`; what follows the whole run is whitespace
      and `function`, not a `:`. */
  lemma ColonRunName(s: string, a: nat, c: nat, d: nat)
    requires a < c && c + 1 < d && d + 8 <= |s| && s[c] == ':'
    requires Run(s, a, c, IsNotSpace) && Run(s, c + 1, d, IsSpace) && s[d..d + 8] == "function"
    ensures Span(s, a, IsNotSpace) == c + 1 && AfterName(s, c + 1) == None
  {
    assert IsSpace(s[c + 1]);
    SpanIs(s, a, IsNotSpace, c + 1);
    assert s[d] == s[d..d + 8][0];
    SpanIs(s, c + 1, IsSpace, d);
  }

  /** `FuncPattern2` when the name runs into the `:`. */
  lemma ColonRunMatch(s: string, a: nat, c: nat, d: nat, t: Declaration)
    requires a < c && c + 1 < d && d + 8 <= |s| && s[c] == ':' && Span(s, 0, IsSpace) == a
    requires Run(s, a, c, IsNotSpace) && Run(s, c + 1, d, IsSpace) && s[d..d + 8] == "function"
    requires AfterColon(s, c + 1) == Some(t)
    ensures FuncPattern2(s) == Some(Declaration(s[a..c], t.params, t.end))
  {
    ColonRunName(s, a, c, d);
    FuncPattern2ColonRun(s, a, c, t);
  }

  /** Every way the regular expression can match captures what the scan
      captures: the name is the whole run of non-whitespace, or that run
      without the `:` that ends it. */
  lemma FuncPattern2Matches(s: string, a: nat, b: nat, c: nat, d: nat, e: nat, g: nat)
    requires PropertyForm(s, a, b, c, d, e, g)
    ensures FuncPattern2(s) == Some(Declaration(s[a..b], s[e + 1..g], g))
  {
    if b < c {
      WholeRunMatches(s, a, b, c, d, e, g);
    } else {
      ColonRunMatches(s, a, b, c, d, e, g);
    }
  }

  lemma WholeRunMatches(s: string, a: nat, b: nat, c: nat, d: nat, e: nat, g: nat)
    requires PropertyForm(s, a, b, c, d, e, g) && b < c
    ensures FuncPattern2(s) == Some(Declaration(s[a..b], s[e + 1..g], g))
  {
    var t := Declaration("", s[e + 1..g], g);
    LeadingSpace(s, a);
    AfterColonForm(s, c, d, e, g);
    WholeRunName(s, a, b, c, t);
    FuncPattern2WholeRun(s, a, b, t);
  }

  lemma ColonRunMatches(s: string, a: nat, b: nat, c: nat, d: nat, e: nat, g: nat)
    requires PropertyForm(s, a, b, c, d, e, g) && b == c
    ensures FuncPattern2(s) == Some(Declaration(s[a..b], s[e + 1..g], g))
  {
    var t := Declaration("", s[e + 1..g], g);
    LeadingSpace(s, a);
    AfterColonForm(s, c, d, e, g);
    ColonRunMatch(s, a, c, d, t);
  }

  /** The runs the scan found, when the name is the whole run, form a match. */
  lemma WholeRunIsForm(s: string, a: nat, w: nat, j: nat) returns (d: nat, e: nat)
    requires a < w <= j < |s| && s[j] == ':'
    requires Span(s, 0, IsSpace) == a && Span(s, a, IsNotSpace) == w && Span(s, w, IsSpace) == j
    requires AfterColon(s, j + 1).Some?
    ensures PropertyForm(s, a, w, j, d, e, AfterColon(s, j + 1).value.end)
    ensures AfterColon(s, j + 1).value.params == s[e + 1..AfterColon(s, j + 1).value.end]
  {
    SpanRun(s, 0, IsSpace);
    SpanRun(s, a, IsNotSpace);
    SpanRun(s, w, IsSpace);
    d, e := AfterColonShape(s, j + 1);
  }

  /** The runs the scan found, when the name is the run without its `:`,
      form a match. */
  lemma ColonRunIsForm(s: string, a: nat, c: nat) returns (d: nat, e: nat)
    requires a < c < |s| && s[c] == ':'
    requires Span(s, 0, IsSpace) == a && Span(s, a, IsNotSpace) == c + 1
    requires AfterColon(s, c + 1).Some?
    ensures PropertyForm(s, a, c, c, d, e, AfterColon(s, c + 1).value.end)
    ensures AfterColon(s, c + 1).value.params == s[e + 1..AfterColon(s, c + 1).value.end]
  {
    SpanRun(s, 0, IsSpace);
    SpanRun(s, a, IsNotSpace);
    d, e := AfterColonShape(s, c + 1);
  }


  /** What the scan accepts is a match of the regular expression. */
  lemma FuncPattern2Sound(s: string)
    requires FuncPattern2(s).Some?
    ensures exists a: nat, b: nat, c: nat, d: nat, e: nat :: (PropertyForm(s, a, b, c, d, e, FuncPattern2(s).value.end)
      && FuncPattern2(s).value.name == s[a..b] && FuncPattern2(s).value.params == s[e + 1..FuncPattern2(s).value.end])
  {
    var a, b, c, d, e := FuncPattern2Witness(s);
  }

  /** `PropertyForm` at the positions of the match `FuncPattern2` found,
      capturing what it captured. */
  predicate PropertyMatch(s: string, a: nat, b: nat, c: nat, d: nat, e: nat)
    requires FuncPattern2(s).Some?
  {
    PropertyForm(s, a, b, c, d, e, FuncPattern2(s).value.end)
    && FuncPattern2(s).value.name == s[a..b] && FuncPattern2(s).value.params == s[e + 1..FuncPattern2(s).value.end]
  }

  /** The positions of the match `FuncPattern2Sound` asserts. */
  lemma FuncPattern2Witness(s: string) returns (a: nat, b: nat, c: nat, d: nat, e: nat)
    requires FuncPattern2(s).Some?
    ensures PropertyMatch(s, a, b, c, d, e)
  {
    if AfterName(s, Span(s, Span(s, 0, IsSpace), IsNotSpace)).Some? {
      a, b, c, d, e := WholeRunMatchOf(s);
    } else {
      a, b, c, d, e := ColonRunMatchOf(s);
    }
  }

  /** The match, when the name is the whole run of non-whitespace. */
  lemma WholeRunMatchOf(s: string) returns (a: nat, b: nat, c: nat, d: nat, e: nat)
    requires FuncPattern2(s).Some? && AfterName(s, Span(s, Span(s, 0, IsSpace), IsNotSpace)).Some?
    ensures PropertyMatch(s, a, b, c, d, e)
  {
    a := Span(s, 0, IsSpace);
    b := Span(s, a, IsNotSpace);
    c := Span(s, b, IsSpace);
    d, e := WholeRunWitness(s, a, b, c);
  }

  /** The match, when the name is that run without its final `:`. */
  lemma ColonRunMatchOf(s: string) returns (a: nat, b: nat, c: nat, d: nat, e: nat)
    requires FuncPattern2(s).Some? && AfterName(s, Span(s, Span(s, 0, IsSpace), IsNotSpace)).None?
    ensures PropertyMatch(s, a, b, c, d, e)
  {
    a := Span(s, 0, IsSpace);
    c := ColonRunResult(s, a, Span(s, a, IsNotSpace));
    b := c;
    d, e := ColonRunWitness(s, a, c);
  }



  lemma WholeRunWitness(s: string, a: nat, w: nat, j: nat) returns (d: nat, e: nat)
    requires a == Span(s, 0, IsSpace) && w == Span(s, a, IsNotSpace) && j == Span(s, w, IsSpace)
    requires FuncPattern2(s).Some? && AfterName(s, w).Some?
    ensures PropertyForm(s, a, w, j, d, e, FuncPattern2(s).value.end)
    ensures FuncPattern2(s).value.name == s[a..w] && FuncPattern2(s).value.params == s[e + 1..FuncPattern2(s).value.end]
  {
    WholeRunResult(s, a, w, j);
    d, e := WholeRunIsForm(s, a, w, j);
  }

  lemma ColonRunWitness(s: string, a: nat, c: nat) returns (d: nat, e: nat)
    requires a < c < |s| && s[c] == ':'
    requires a == Span(s, 0, IsSpace) && c + 1 == Span(s, a, IsNotSpace) && AfterColon(s, c + 1).Some?
    requires FuncPattern2(s) == Some(Declaration(s[a..c], AfterColon(s, c + 1).value.params, AfterColon(s, c + 1).value.end))
    ensures PropertyForm(s, a, c, c, d, e, FuncPattern2(s).value.end)
    ensures FuncPattern2(s).value.name == s[a..c] && FuncPattern2(s).value.params == s[e + 1..FuncPattern2(s).value.end]
  {
    d, e := ColonRunIsForm(s, a, c);
  }


  /** What `FuncPattern2` returns when the whole run is the name. */
  lemma WholeRunResult(s: string, a: nat, w: nat, j: nat)
    requires a == Span(s, 0, IsSpace) && w == Span(s, a, IsNotSpace) && j == Span(s, w, IsSpace)
    requires FuncPattern2(s).Some? && AfterName(s, w).Some?
    ensures a < w <= j < |s| && s[j] == ':' && AfterColon(s, j + 1).Some?
    ensures FuncPattern2(s).value == Declaration(s[a..w], AfterColon(s, j + 1).value.params, AfterColon(s, j + 1).value.end)
  {
  }

  /** What `FuncPattern2` returns when the name is the run without its `:`. */
  lemma ColonRunResult(s: string, a: nat, w: nat) returns (c: nat)
    requires a == Span(s, 0, IsSpace) && w == Span(s, a, IsNotSpace)
    requires FuncPattern2(s).Some? && AfterName(s, w).None?
    ensures c + 1 == w && a < c < |s| && s[c] == ':' && AfterColon(s, c + 1).Some?
    ensures FuncPattern2(s) == Some(Declaration(s[a..c], AfterColon(s, c + 1).value.params, AfterColon(s, c + 1).value.end))
  {
    c := w - 1;
  }



  /** The scan finds a match exactly when the regular expression has one,
      and every way the expression can match captures what the scan captures. */
  lemma FuncPattern2IsRegex(s: string)
    ensures FuncPattern2(s).Some? ==>
      exists a: nat, b: nat, c: nat, d: nat, e: nat :: (PropertyForm(s, a, b, c, d, e, FuncPattern2(s).value.end)
        && FuncPattern2(s).value.name == s[a..b] && FuncPattern2(s).value.params == s[e + 1..FuncPattern2(s).value.end])
    ensures forall a: nat, b: nat, c: nat, d: nat, e: nat, g: nat :: PropertyForm(s, a, b, c, d, e, g) ==>
      FuncPattern2(s) == Some(Declaration(s[a..b], s[e + 1..g], g))
  {
    if FuncPattern2(s).Some? {
      FuncPattern2Sound(s);
    }
    forall a: nat, b: nat, c: nat, d: nat, e: nat, g: nat | PropertyForm(s, a, b, c, d, e, g)
      ensures FuncPattern2(s) == Some(Declaration(s[a..b], s[e + 1..g], g))
    {
      FuncPattern2Matches(s, a, b, c, d, e, g);
    }
  }

  /** `funcPattern.exec(s) || funcPattern2.exec(s)`: the keyword form is
      tried first. */
  function DeclarationOf(s: string): (r: Option<Declaration>)
    ensures r.Some? ==> r.value.end <= |s|
  {
    if FuncPattern(s).Some? then FuncPattern(s) else FuncPattern2(s)
  }

  /** `res[1] || null`: an empty captured name is no name. */
  function NameOf(d: Declaration): Option<string>
  {
    if d.name == "" then None else Some(d.name)
  }

  // ------------------------------------------------------------------
  // stripFuncDeclaration

  /** `s.replace(pattern, "")` for a pattern anchored at the start. */
  function RemoveMatch(s: string, m: Option<Declaration>): string
    requires m.Some? ==> m.value.end <= |s|
  {
    match m
    case Some(d) => s[d.end..]
    case None => s
  }

  /** Removing the closing pattern: whitespace, `)`, whitespace, `{`, whitespace. */
  function StripClose(s: string): string
  {
    var a := Span(s, 0, IsSpace);
    if a < |s| && s[a] == ')' then
      var b := Span(s, a + 1, IsSpace);
      if b < |s| && s[b] == '{' then s[Span(s, b + 1, IsSpace)..] else s
    else
      s
  }

  /** The function's source with the declaration, the `)`, the `{` and the
      whitespace after it removed; the three replacements run one after
      the other, each on what the previous one left. */
  function StripFuncDeclaration(s: string): string
  {
    var s1 := RemoveMatch(s, FuncPattern(s));
    var s2 := RemoveMatch(s1, FuncPattern2(s1));
    StripClose(s2)
  }

  /** What is left after a declaration: `)`, whitespace holding at least one
      character, `{`, whitespace, and the body. Neither declaration pattern
      matches it, and the closing pattern leaves exactly the body. */
  lemma StripCloseTail(w3: string, w4: string, body: string)
    requires AllSpace(w3) && |w3| >= 1 && AllSpace(w4)
    requires body == [] || !IsSpace(body[0])
    ensures FuncPattern2(")" + w3 + "{" + w4 + body) == None
    ensures StripClose(")" + w3 + "{" + w4 + body) == body
  {
    var t := ")" + w3 + "{" + w4 + body;
    var j := 1 + |w3|;
    var k := j + 1 + |w4|;
    assert t[0] == ')' && t[j] == '{';
    assert forall i :: 1 <= i < j ==> t[i] == w3[i - 1];
    assert forall i :: j + 1 <= i < k ==> t[i] == w4[i - j - 1];
    assert t[k..] == body;
    CloseTailNoName(t, j);
    CloseTailStrip(t, j, k);
  }

  /** After `)` and at least one whitespace character comes `{`, not `:`,
      so `funcPattern2` does not match. */
  lemma CloseTailNoName(t: string, j: nat)
    requires 1 < j < |t| && t[0] == ')' && Run(t, 1, j, IsSpace) && t[j] == '{'
    ensures FuncPattern2(t) == None
  {
    SpanIs(t, 0, IsSpace, 0);
    SpanIs(t, 0, IsNotSpace, 1);
    SpanIs(t, 1, IsSpace, j);
    assert AfterName(t, 1) == None;
  }

  /** The closing pattern removes `)`, whitespace, `{` and whitespace. */
  lemma CloseTailStrip(t: string, j: nat, k: nat)
    requires 1 <= j < k <= |t| && t[0] == ')' && Run(t, 1, j, IsSpace) && t[j] == '{'
    requires Run(t, j + 1, k, IsSpace) && (k == |t| || !IsSpace(t[k]))
    ensures StripClose(t) == t[k..]
  {
    SpanIs(t, 0, IsSpace, 0);
    SpanIs(t, 1, IsSpace, j);
    SpanIs(t, j + 1, IsSpace, k);
  }

  /** `stripFuncDeclaration` removes a keyword declaration through the `)`,
      the `{` and the whitespace after it, leaving the body. */
  lemma StripKeywordDeclaration(s: string, a: nat, b: nat, c: nat, d: nat, e: nat,
                                w3: string, w4: string, body: string)
    requires KeywordForm(s, a, b, c, d, e)
    requires s[e..] == ")" + w3 + "{" + w4 + body
    requires AllSpace(w3) && |w3| >= 1 && AllSpace(w4)
    requires body == [] || !IsSpace(body[0])
    ensures DeclarationOf(s) == Some(Declaration(s[b..c], s[d + 1..e], e))
    ensures StripFuncDeclaration(s) == body
  {
    FuncPatternMatches(s, a, b, c, d, e);
    StripCloseTail(w3, w4, body);
  }

  /** A name that does not begin with `function`, followed by whitespace or
      a colon, does not begin the keyword form. */
  lemma NotKeywordStart(s: string, a: nat, b: nat)
    requires a < b < |s| && (IsSpace(s[b]) || s[b] == ':')
    requires !StartsWith(s[a..b], "function")
    ensures !StartsWith(s[a..], "function")
  {
    if b - a >= 8 {
      assert s[a..b][..8] == s[a..][..8];
    } else if |s| - a >= 8 {
      assert s[a..][..8][b - a] == s[b];
      assert "function"[b - a] != s[b];
    }
  }

  /** `stripFuncDeclaration` removes a `name : function (...)` declaration
      through the `)`, the `{` and the whitespace after it, leaving the body,
      when the name does not itself begin with `function`. */
  lemma StripPropertyDeclaration(s: string, a: nat, b: nat, c: nat, d: nat, e: nat, g: nat,
                                 w4: string, w5: string, body: string)
    requires PropertyForm(s, a, b, c, d, e, g)
    requires !StartsWith(s[a..b], "function")
    requires s[g..] == ")" + w4 + "{" + w5 + body
    requires AllSpace(w4) && |w4| >= 1 && AllSpace(w5)
    requires body == [] || !IsSpace(body[0])
    ensures DeclarationOf(s) == Some(Declaration(s[a..b], s[e + 1..g], g))
    ensures StripFuncDeclaration(s) == body
  {
    assert FuncPattern(s) == None by {
      SpanIs(s, 0, IsSpace, a);
      NotKeywordStart(s, a, b);
    }
    FuncPattern2Matches(s, a, b, c, d, e, g);
    StripCloseTail(w4, w5, body);
  }

  // ------------------------------------------------------------------
  // getDoc

  /** The text a trimmed body line contributes to the documentation, if it
      is a `///` line: `/^\/\/\/\s*(.*)$/` on the trimmed line. The capture
      starts after the whitespace following `///`; the match fails when the
      rest holds a line terminator, which `.` does not match. */
  function DocLineCapture(line: string): (r: Option<string>)
    ensures r.Some? ==> NoLineTerminator(r.value)
    ensures r.Some? ==> r.value == [] || (!IsSpace(r.value[0]) && !IsSpace(r.value[|r.value| - 1]))
  {
    var t := Trim(line);
    if StartsWith(t, "///") then
      var k := Span(t, 3, IsSpace);
      if NoLineTerminator(t[k..]) then Some(t[k..]) else None
    else
      None
  }

  /** A `///` line gives back the text written after it, when that text has
      no surrounding whitespace and no line terminator. */
  lemma DocLineOf(text: string)
    requires NoLineTerminator(text)
    requires text == [] || (!IsSpace(text[0]) && !IsSpace(text[|text| - 1]))
    ensures DocLineCapture("///" + text) == Some(text)
  {
    var line := "///" + text;
    TrimExact([], line, []);
    assert [] + line + [] == line;
    SpanIs(line, 3, IsSpace, 3);
    assert line[3..] == text;
  }

  /** The values at the head of `xs` up to its first `None`. */
  function LeadingSome<T>(xs: seq<Option<T>>): (r: seq<T>)
    ensures |r| <= |xs|
    ensures forall i :: 0 <= i < |r| ==> xs[i] == Some(r[i])
    ensures |r| < |xs| ==> xs[|r|].None?
  {
    if xs == [] || xs[0].None? then [] else [xs[0].value] + LeadingSome(xs[1..])
  }

  /** The only sequence with those properties is the leading run. */
  lemma {:induction false} LeadingSomeUnique<T>(xs: seq<Option<T>>, r: seq<T>)
    requires |r| <= |xs|
    requires forall i :: 0 <= i < |r| ==> xs[i] == Some(r[i])
    requires |r| < |xs| ==> xs[|r|].None?
    ensures r == LeadingSome(xs)
  {
    if xs != [] && r != [] {
      LeadingSomeUnique(xs[1..], r[1..]);
      assert r == [r[0]] + r[1..];
    }
  }

  /** What `/^\/\/\/\s*(.*)$/` gives for each trimmed line. */
  function Captures(lines: seq<string>): (r: seq<Option<string>>)
    ensures |r| == |lines|
    ensures forall i :: 0 <= i < |lines| ==> r[i] == DocLineCapture(lines[i])
  {
    seq(|lines|, i requires 0 <= i < |lines| => DocLineCapture(lines[i]))
  }

  /** The captures of the leading run of `///` lines: it stops at the first
      line that is not one, so later `///` lines are never included. */
  function LeadingDocRun(lines: seq<string>): (r: seq<string>)
    ensures |r| <= |lines|
    ensures forall i :: 0 <= i < |r| ==> DocLineCapture(lines[i]) == Some(r[i])
    ensures |r| < |lines| ==> DocLineCapture(lines[|r|]).None?
  {
    LeadingSome(Captures(lines))
  }

  /** The run is the only sequence of captures with those properties. */
  lemma LeadingDocRunUnique(lines: seq<string>, r: seq<string>)
    requires |r| <= |lines|
    requires forall i :: 0 <= i < |r| ==> DocLineCapture(lines[i]) == Some(r[i])
    requires |r| < |lines| ==> DocLineCapture(lines[|r|]).None?
    ensures r == LeadingDocRun(lines)
  {
    LeadingSomeUnique(Captures(lines), r);
  }

  /** What `getDoc` returns for a function's source. */
  function DocText(source: string): string
  {
    Join(LeadingDocRun(Split(StripFuncDeclaration(source), '\n')), "\n")
  }

  /** The documentation splits back into the captured lines: no capture
      holds a newline. */
  lemma DocTextLines(source: string)
    requires LeadingDocRun(Split(StripFuncDeclaration(source), '\n')) != []
    ensures Split(DocText(source), '\n') == LeadingDocRun(Split(StripFuncDeclaration(source), '\n'))
  {
    var run := LeadingDocRun(Split(StripFuncDeclaration(source), '\n'));
    forall i | 0 <= i < |run|
      ensures '\n' !in run[i]
    {
      assert DocLineCapture(Split(StripFuncDeclaration(source), '\n')[i]) == Some(run[i]);
    }
    SplitJoin(run, '\n');
  }

  /** One more capture extends a run of captures. */
  lemma CapturesExtend(lines: seq<string>, r: seq<string>, v: string)
    requires |r| < |lines| && DocLineCapture(lines[|r|]) == Some(v)
    requires forall k :: 0 <= k < |r| ==> DocLineCapture(lines[k]) == Some(r[k])
    ensures forall k :: 0 <= k < |r| + 1 ==> DocLineCapture(lines[k]) == Some((r + [v])[k])
  {
  }

  /** `getDoc`: the `///` lines at the start of the body, without the
      slashes, joined by newlines. */
  method GetDoc(funcString: string) returns (doc: string)
    ensures doc == DocText(funcString)
  {
    var bodyString := StripFuncDeclaration(funcString);
    var lines := Split(bodyString, '\n');
    var docLines: seq<string> := [];
    var i := 0;
    while i < |lines|
      invariant 0 <= i <= |lines|
      invariant |docLines| == i
      invariant forall k :: 0 <= k < i ==> DocLineCapture(lines[k]) == Some(docLines[k])
    {
      var res := DocLineCapture(lines[i]);
      if res.Some? {
        CapturesExtend(lines, docLines, res.value);
        docLines := docLines + [res.value];
      } else {
        break;
      }
      i := i + 1;
    }
    LeadingDocRunUnique(lines, docLines);
    doc := Join(docLines, "\n");
  }

  // ------------------------------------------------------------------
  // replaceParam

  /** A `<param` opening tag, closed by a `>` somewhere later, starts here. */
  predicate OpenTagAt(s: string)
  {
    StartsWith(s, "<param") && IndexOf(s[6..], '>').Some?
  }

  /** `s.replace(/(<)(param)([^>]*>)/g, "$1parameter$3")`: each match runs
      to the first `>` after `<param`, and the search resumes after it. */
  function RenameOpenTags(s: string): string
    decreases |s|
  {
    if s == [] then []
    else if OpenTagAt(s) then
      var j := 6 + IndexOf(s[6..], '>').value;
      "<parameter" + s[6..j + 1] + RenameOpenTags(s[j + 1..])
    else
      [s[0]] + RenameOpenTags(s[1..])
  }

  /** The inverse renaming, `<parameter...>` back to `<param...>`. */
  function RestoreOpenTags(t: string): string
    decreases |t|
  {
    if t == [] then []
    else if StartsWith(t, "<parameter") && IndexOf(t[10..], '>').Some? then
      var j := 10 + IndexOf(t[10..], '>').value;
      "<param" + t[10..j + 1] + RestoreOpenTags(t[j + 1..])
    else
      [t[0]] + RestoreOpenTags(t[1..])
  }

  /** `s.replace(/<\/param>/g, "</parameter>")`. */
  function RenameCloseTags(s: string): string
    decreases |s|
  {
    if s == [] then []
    else if StartsWith(s, "</param>") then "</parameter>" + RenameCloseTags(s[8..])
    else [s[0]] + RenameCloseTags(s[1..])
  }

  function RestoreCloseTags(t: string): string
    decreases |t|
  {
    if t == [] then []
    else if StartsWith(t, "</parameter>") then "</param>" + RestoreCloseTags(t[12..])
    else [t[0]] + RestoreCloseTags(t[1..])
  }

  /** `replaceParam`: `<param>` elements become `<parameter>` elements. */
  function ReplaceParam(doc: string): string
  {
    RenameCloseTags(RenameOpenTags(doc))
  }

  /** A `<parameter...>` opening tag, closed by a `>`, starts here. */
  predicate ParameterTagAt(t: string)
  {
    StartsWith(t, "<parameter") && IndexOf(t[10..], '>').Some?
  }

  /** Text without `>` holds no complete opening tag and is left alone. */
  lemma {:induction false} RenameOpenWithoutGt(s: string)
    requires '>' !in s
    ensures RenameOpenTags(s) == s
    decreases |s|
  {
    if s != [] {
      if |s| >= 6 {
        NotInSuffix(s, '>', 6);
      }
      NotInSuffix(s, '>', 1);
      RenameOpenWithoutGt(s[1..]);
    }
  }

  /** One opening tag renamed: `<param` + `u` + `>` becomes `<parameter` + `u` + `>`. */
  lemma RenameOpenStep(u: string, rest: string)
    requires '>' !in u
    ensures RenameOpenTags("<param" + u + ">" + rest) == "<parameter" + u + ">" + RenameOpenTags(rest)
  {
    var s := "<param" + u + ">" + rest;
    assert s[..6] == "<param";
    assert s[6..] == u + ">" + rest;
    IndexOfAfter(u, '>', rest);
    assert s[6..6 + |u| + 1] == u + ">";
    assert s[6 + |u| + 1..] == rest;
  }

  /** One opening tag restored: `<parameter` + `u` + `>` becomes `<param` + `u` + `>`. */
  lemma RestoreOpenStep(u: string, rest: string)
    requires '>' !in u
    ensures RestoreOpenTags("<parameter" + u + ">" + rest) == "<param" + u + ">" + RestoreOpenTags(rest)
  {
    var t := "<parameter" + u + ">" + rest;
    assert t[..10] == "<parameter";
    assert t[10..] == u + ">" + rest;
    IndexOfAfter(u, '>', rest);
    assert t[10..10 + |u| + 1] == u + ">";
    assert t[10 + |u| + 1..] == rest;
  }

  /** Renaming opening tags only inserts text that starts with `<`, so a
      prefix without `<` of the result was already a prefix of the input. */
  lemma {:induction false} RenameOpenKeepsPrefix(x: string, w: string)
    requires '<' !in w
    ensures StartsWith(RenameOpenTags(x), w) ==> StartsWith(x, w)
    decreases |x|
  {
    if w != [] && x != [] {
      StartsWithHead(RenameOpenTags(x), w);
      if !OpenTagAt(x) && x[0] == w[0] {
        RenameOpenKeepsPrefix(x[1..], w[1..]);
        assert RenameOpenTags(x) == [x[0]] + RenameOpenTags(x[1..]);
        assert w == [x[0]] + w[1..] && x == [x[0]] + x[1..];
        StartsWithCons(x[0], RenameOpenTags(x[1..]), w[1..]);
        StartsWithCons(x[0], x[1..], w[1..]);
      }
    }
  }

  /** Where the input holds no opening tag, the renamed text holds no
      `<parameter...>` tag either. */
  lemma NoTagAfterRename(s: string)
    requires s != [] && !OpenTagAt(s)
    ensures !ParameterTagAt([s[0]] + RenameOpenTags(s[1..]))
  {
    var t := [s[0]] + RenameOpenTags(s[1..]);
    StartsWithHead(t, "<parameter");
    StartsWithShorter(t, "<param", "eter");
    if s[0] == '<' {
      assert s == ['<'] + s[1..];
      StartsWithCons('<', s[1..], "param");
      if StartsWith(s, "<param") {
        assert '>' !in s[1..] by {
          assert s[1..] == s[1..6] + s[6..];
        }
        RenameOpenWithoutGt(s[1..]);
        assert t == s;
        assert '>' !in s by {
          assert s == s[..1] + s[1..];
        }
        if |t| >= 10 {
          NotInSuffix(s, '>', 10);
        }
      } else {
        RenameOpenKeepsPrefix(s[1..], "param");
        StartsWithCons('<', RenameOpenTags(s[1..]), "param");
      }
    }
  }

  /** Renaming opening tags loses nothing: the inverse gives the text back. */
  lemma {:induction false} RestoreRenameOpen(s: string)
    ensures RestoreOpenTags(RenameOpenTags(s)) == s
    decreases |s|
  {
    if s == [] {
    } else if OpenTagAt(s) {
      var j := 6 + IndexOf(s[6..], '>').value;
      var u := s[6..j];
      var rest := s[j + 1..];
      assert '>' !in u;
      assert s == "<param" + u + ">" + rest;
      RenameOpenStep(u, rest);
      RestoreOpenStep(u, RenameOpenTags(rest));
      RestoreRenameOpen(rest);
    } else {
      NoTagAfterRename(s);
      var t := [s[0]] + RenameOpenTags(s[1..]);
      assert RenameOpenTags(s) == t;
      assert t[1..] == RenameOpenTags(s[1..]);
      RestoreRenameOpen(s[1..]);
    }
  }

  /** Renaming closing tags only inserts text that starts with `<`. */
  lemma {:induction false} RenameCloseKeepsPrefix(x: string, w: string)
    requires '<' !in w
    ensures StartsWith(RenameCloseTags(x), w) ==> StartsWith(x, w)
    decreases |x|
  {
    if w != [] && x != [] {
      StartsWithHead(RenameCloseTags(x), w);
      if !StartsWith(x, "</param>") && x[0] == w[0] {
        RenameCloseKeepsPrefix(x[1..], w[1..]);
        assert RenameCloseTags(x) == [x[0]] + RenameCloseTags(x[1..]);
        assert w == [x[0]] + w[1..] && x == [x[0]] + x[1..];
        StartsWithCons(x[0], RenameCloseTags(x[1..]), w[1..]);
        StartsWithCons(x[0], x[1..], w[1..]);
      }
    }
  }

  /** `s` holds no `</parameter>` closing tag. */
  ghost predicate NoParameterClose(s: string)
  {
    forall j: nat :: !OccursAt(s, "</parameter>", j)
  }

  lemma NoParameterCloseSuffix(s: string, i: nat)
    requires i <= |s| && NoParameterClose(s)
    ensures NoParameterClose(s[i..])
  {
    forall j: nat ensures !OccursAt(s[i..], "</parameter>", j) {
      OccursInSuffix(s, "</parameter>", i, j);
    }
  }

  /** A renamed opening tag creates no `</parameter>`: the only `>` of the
      new tag ends it, and its other characters are letters. */
  lemma RenamedTagHasNoClose(u: string, rest: string, rr: string)
    requires '>' !in u
    requires NoParameterClose("<param" + u + ">" + rest)
    requires NoParameterClose(rr)
    ensures NoParameterClose("<parameter" + u + ">" + rr)
  {
    var t := "<parameter" + u + ">" + rr;
    var q := 10 + |u|;
    forall p: nat
      ensures !OccursAt(t, "</parameter>", p)
    {
      if p + 12 <= |t| {
        if p < 10 {
          RenamedTagStart(u, rr, p);
        } else if p + 12 <= q + 1 {
          RenamedTagInside(u, rest, rr, p);
        } else if p <= q {
          RenamedTagEnd(u, rr, p);
        } else {
          RenamedTagAfter(u, rr, p);
        }
      }
    }
  }

  /** No `</parameter>` overlaps the `>` that ends the renamed tag. */
  lemma RenamedTagEnd(u: string, rr: string, p: nat)
    requires 10 <= p <= 10 + |u| < p + 11 && p + 12 <= |"<parameter" + u + ">" + rr|
    ensures !OccursAt("<parameter" + u + ">" + rr, "</parameter>", p)
  {
    var t := "<parameter" + u + ">" + rr;
    assert t[10 + |u|] == '>';
    NotCloseAt(t, p, 10 + |u| - p);
  }

  /** After the renamed tag comes `rr`, which has no `</parameter>`. */
  lemma RenamedTagAfter(u: string, rr: string, p: nat)
    requires 10 + |u| < p && NoParameterClose(rr)
    ensures !OccursAt("<parameter" + u + ">" + rr, "</parameter>", p)
  {
    var t := "<parameter" + u + ">" + rr;
    var q := 10 + |u|;
    OccursInSuffix(t, "</parameter>", q + 1, p - q - 1);
    assert t[q + 1..] == rr;
  }

  /** A character that differs from the one `</parameter>` has at offset
      `k` rules out an occurrence at `p`. */
  lemma NotCloseAt(t: string, p: nat, k: nat)
    requires p + 12 <= |t| && k < 12 && t[p + k] != "</parameter>"[k]
    ensures !OccursAt(t, "</parameter>", p)
  {
    assert t[p..p + 12][k] == t[p + k];
  }

  /** No `</parameter>` starts inside `<parameter`. */
  lemma RenamedTagStart(u: string, rr: string, p: nat)
    requires p < 10 && p + 12 <= |"<parameter" + u + ">" + rr|
    ensures !OccursAt("<parameter" + u + ">" + rr, "</parameter>", p)
  {
    var t := "<parameter" + u + ">" + rr;
    if p == 0 {
      assert t[1] == 'p';
      NotCloseAt(t, 0, 1);
    } else {
      assert t[p] == "<parameter"[p];
      NotCloseAt(t, p, 0);
    }
  }

  /** A `</parameter>` within the renamed tag would be one within the
      original tag, four characters earlier. */
  lemma RenamedTagInside(u: string, rest: string, rr: string, p: nat)
    requires 10 <= p && p + 12 <= 11 + |u|
    requires NoParameterClose("<param" + u + ">" + rest)
    ensures !OccursAt("<parameter" + u + ">" + rr, "</parameter>", p)
  {
    var s := "<param" + u + ">" + rest;
    var t := "<parameter" + u + ">" + rr;
    forall k | p <= k < p + 12
      ensures t[k] == s[k - 4]
    {
      if k < 10 + |u| {
        assert t[k] == u[k - 10];
        assert s[k - 4] == u[k - 10];
      } else {
        assert t[k] == '>';
        assert s[k - 4] == '>';
      }
    }
    assert t[p..p + 12] == s[p - 4..p + 8];
    assert !OccursAt(s, "</parameter>", p - 4);
  }

  /** A character kept as it is creates no `</parameter>` either. */
  lemma KeptCharHasNoClose(s: string)
    requires s != [] && !OpenTagAt(s)
    requires NoParameterClose(s) && NoParameterClose(RenameOpenTags(s[1..]))
    ensures NoParameterClose([s[0]] + RenameOpenTags(s[1..]))
  {
    var t := [s[0]] + RenameOpenTags(s[1..]);
    KeptOpenCharNoClose(s);
    assert t[1..] == RenameOpenTags(s[1..]);
    NoCloseAfterHead(t);
  }

  /** The kept character does not start a `</parameter>`. */
  lemma KeptOpenCharNoClose(s: string)
    requires s != [] && NoParameterClose(s)
    ensures !StartsWith([s[0]] + RenameOpenTags(s[1..]), "</parameter>")
  {
    var t := [s[0]] + RenameOpenTags(s[1..]);
    StartsWithHead(t, "</parameter>");
    if s[0] == '<' {
      assert !OccursAt(s, "</parameter>", 0);
      assert s == ['<'] + s[1..];
      assert "</parameter>" == ['<'] + "/parameter>";
      RenameOpenKeepsPrefix(s[1..], "/parameter>");
      StartsWithCons('<', RenameOpenTags(s[1..]), "/parameter>");
      StartsWithCons('<', s[1..], "/parameter>");
    }
  }

  /** No `</parameter>` at the start nor after it means none at all. */
  lemma NoCloseAfterHead(t: string)
    requires t != [] && !StartsWith(t, "</parameter>") && NoParameterClose(t[1..])
    ensures NoParameterClose(t)
  {
    forall p: nat
      ensures !OccursAt(t, "</parameter>", p)
    {
      if p > 0 {
        OccursInSuffix(t, "</parameter>", 1, p - 1);
      }
    }
  }

  /** Renaming opening tags never creates a `</parameter>` closing tag. */
  lemma {:induction false} RenameOpenKeepsNoClose(s: string)
    requires NoParameterClose(s)
    ensures NoParameterClose(RenameOpenTags(s))
    decreases |s|
  {
    if s == [] {
    } else if OpenTagAt(s) {
      var j := 6 + IndexOf(s[6..], '>').value;
      var u := s[6..j];
      var rest := s[j + 1..];
      assert '>' !in u;
      assert s == "<param" + u + ">" + rest;
      RenameOpenStep(u, rest);
      NoParameterCloseSuffix(s, j + 1);
      RenameOpenKeepsNoClose(rest);
      RenamedTagHasNoClose(u, rest, RenameOpenTags(rest));
    } else {
      NoParameterCloseSuffix(s, 1);
      RenameOpenKeepsNoClose(s[1..]);
      KeptCharHasNoClose(s);
    }
  }

  /** A renamed `</param>` tag is restored. */
  lemma RestoreRenamedTag(s: string)
    requires StartsWith(s, "</param>")
    requires RestoreCloseTags(RenameCloseTags(s[8..])) == s[8..]
    ensures RestoreCloseTags(RenameCloseTags(s)) == s
  {
    var t := RenameCloseTags(s);
    assert t == "</parameter>" + RenameCloseTags(s[8..]);
    assert t[..12] == "</parameter>";
    assert t[12..] == RenameCloseTags(s[8..]);
    assert s == "</param>" + s[8..];
  }

  /** A kept character does not start a `</parameter>` once renamed, as
      the text has none. */
  lemma KeptCharNoClose(s: string)
    requires s != [] && NoParameterClose(s)
    ensures !StartsWith([s[0]] + RenameCloseTags(s[1..]), "</parameter>")
  {
    var t := [s[0]] + RenameCloseTags(s[1..]);
    StartsWithHead(t, "</parameter>");
    if s[0] == '<' {
      assert !OccursAt(s, "</parameter>", 0);
      assert s == ['<'] + s[1..];
      assert "</parameter>" == ['<'] + "/parameter>";
      RenameCloseKeepsPrefix(s[1..], "/parameter>");
      StartsWithCons('<', RenameCloseTags(s[1..]), "/parameter>");
      StartsWithCons('<', s[1..], "/parameter>");
    }
  }

  /** A character kept as it is is restored as it is. */
  lemma RestoreKeptChar(s: string)
    requires s != [] && !StartsWith(s, "</param>") && NoParameterClose(s)
    requires RestoreCloseTags(RenameCloseTags(s[1..])) == s[1..]
    ensures RestoreCloseTags(RenameCloseTags(s)) == s
  {
    var t := [s[0]] + RenameCloseTags(s[1..]);
    assert RenameCloseTags(s) == t;
    KeptCharNoClose(s);
    assert t[1..] == RenameCloseTags(s[1..]);
    assert RestoreCloseTags(t) == [s[0]] + s[1..];
  }

  /** Renaming closing tags loses nothing in a text that does not already
      hold a `</parameter>` closing tag. */
  lemma {:induction false} RestoreRenameClose(s: string)
    requires NoParameterClose(s)
    ensures RestoreCloseTags(RenameCloseTags(s)) == s
    decreases |s|
  {
    if s == [] {
    } else if StartsWith(s, "</param>") {
      NoParameterCloseSuffix(s, 8);
      RestoreRenameClose(s[8..]);
      RestoreRenamedTag(s);
    } else {
      NoParameterCloseSuffix(s, 1);
      RestoreRenameClose(s[1..]);
      RestoreKeptChar(s);
    }
  }

  /** `replaceParam` loses nothing: undoing the two renamings gives back a
      documentation text that did not already use `</parameter>`. */
  lemma ReplaceParamRoundTrip(doc: string)
    requires NoParameterClose(doc)
    ensures RestoreOpenTags(RestoreCloseTags(ReplaceParam(doc))) == doc
  {
    RenameOpenKeepsNoClose(doc);
    RestoreRenameClose(RenameOpenTags(doc));
    RestoreRenameOpen(doc);
  }

  // ------------------------------------------------------------------
  // parseParamList

  /** `parseParamList`: the comma-separated names with all whitespace
      deleted; no names for a list that is only whitespace. */
  function ParseParamList(paramList: string): seq<string>
  {
    var fixedParamList := RemoveSpaces(paramList);
    if fixedParamList != "" then Split(fixedParamList, ',') else []
  }

  /** The names hold no whitespace and no comma; there are none exactly
      when the list is only whitespace; otherwise joined by commas they give
      the list without its whitespace. */
  lemma ParseParamListJoin(paramList: string)
    ensures forall i :: 0 <= i < |ParseParamList(paramList)| ==>
      ',' !in ParseParamList(paramList)[i] && All(ParseParamList(paramList)[i], IsNotSpace)
    ensures ParseParamList(paramList) == [] <==> AllSpace(paramList)
    ensures ParseParamList(paramList) != [] ==> Join(ParseParamList(paramList), ",") == RemoveSpaces(paramList)
  {
    var fixed := RemoveSpaces(paramList);
    if fixed != "" {
      JoinSplit(fixed, ',');
      PiecesHaveNoSpace(fixed, ',');
    }
  }

  /** Splitting a text without whitespace gives pieces without whitespace. */
  lemma PiecesHaveNoSpace(s: string, c: char)
    requires forall k :: 0 <= k < |s| ==> !IsSpace(s[k])
    ensures forall i :: 0 <= i < |Split(s, c)| ==> All(Split(s, c)[i], IsNotSpace)
  {
    forall i | 0 <= i < |Split(s, c)|
      ensures All(Split(s, c)[i], IsNotSpace)
    {
      var lo, hi := SplitPiecesAreSlices(s, c, i);
    }
  }

  /** Each piece of a split is a contiguous part of the string. */
  lemma {:induction false} SplitPiecesAreSlices(s: string, c: char, i: nat) returns (lo: nat, hi: nat)
    requires i < |Split(s, c)|
    ensures lo <= hi <= |s| && Split(s, c)[i] == s[lo..hi]
    decreases |s|
  {
    match IndexOf(s, c)
    case None =>
      lo, hi := 0, |s|;
    case Some(k) =>
      if i == 0 {
        lo, hi := 0, k;
      } else {
        var t := s[k + 1..];
        SplitLater(s, c, k, i);
        var lo', hi' := SplitPiecesAreSlices(t, c, i - 1);
        lo, hi := k + 1 + lo', k + 1 + hi';
        SliceOfSuffix(s, k + 1, lo', hi');
      }
  }

  /** The pieces after the first are the pieces of the rest. */
  lemma SplitLater(s: string, c: char, k: nat, i: nat)
    requires IndexOf(s, c) == Some(k) && 0 < i < |Split(s, c)|
    ensures i - 1 < |Split(s[k + 1..], c)| && Split(s, c)[i] == Split(s[k + 1..], c)[i - 1]
  {
    assert Split(s, c) == [s[..k]] + Split(s[k + 1..], c);
  }

  lemma SliceOfSuffix(s: string, k: nat, lo: nat, hi: nat)
    requires k <= |s| && lo <= hi <= |s| - k
    ensures s[k..][lo..hi] == s[k + lo..k + hi]
  {
  }

  // ------------------------------------------------------------------
  // parseDoc

  /** An element of the documentation as the browser's parser presents it:
      its attributes and its `innerText`. */
  datatype Element = Element(attributes: map<string, string>, innerText: string)

  /** The elements `getElementsByTagName` finds in the documentation. */
  datatype DocTree = DocTree(summaries: seq<Element>, parameters: seq<Element>, returnElements: seq<Element>)

  /** A `<param>` entry of the documentation. */
  datatype ParamDoc = ParamDoc(
    name: Option<string>,
    typeName: Option<string>,
    optional: bool,
    mayBeNull: bool,
    description: string)

  datatype ParsedDoc = ParsedDoc(
    summary: Option<string>,
    params: seq<ParamDoc>,
    returnType: Option<string>,
    returnDesc: Option<string>)

  /** `getAttribute(name)`, which is `null` for a missing attribute. */
  function Attribute(e: Element, name: string): Option<string>
  {
    if name in e.attributes then Some(e.attributes[name]) else None
  }

  /** `x || null` on a string that may be null: the empty string is null too. */
  function NonEmpty(x: Option<string>): Option<string>
  {
    if x == Some("") then None else x
  }

  /** The two strings are equal when letter case is ignored. */
  predicate EqualsIgnoringCase(a: string, b: string)
  {
    |a| == |b| && forall k :: 0 <= k < |a| ==> LowerChar(a[k]) == LowerChar(b[k])
  }

  /** `(x || "").toLowerCase() === "true"` on an attribute that may be
      missing: set, and `true` in any letter case. */
  function IsTrueFlag(x: Option<string>): (r: bool)
    ensures r <==> x.Some? && EqualsIgnoringCase(x.value, "true")
  {
    Lower(x.GetOr("")) == "true"
  }

  /** The record `parseDoc` builds from one `<parameter>` element. */
  function ParamDocOf(e: Element): (r: ParamDoc)
    ensures r.optional <==> Attribute(e, "optional").Some? && EqualsIgnoringCase(e.attributes["optional"], "true")
    ensures r.mayBeNull <==> Attribute(e, "mayBeNull").Some? && EqualsIgnoringCase(e.attributes["mayBeNull"], "true")
    ensures r.typeName.Some? ==> r.typeName == Attribute(e, "type") && r.typeName != Some("")
  {
    ParamDoc(
      Attribute(e, "name"),
      NonEmpty(Attribute(e, "type")),
      IsTrueFlag(Attribute(e, "optional")),
      IsTrueFlag(Attribute(e, "mayBeNull")),
      Trim(e.innerText))
  }

  /** The records of the `<parameter>` elements, in document order. */
  function ParamDocs(elements: seq<Element>): (r: seq<ParamDoc>)
    ensures |r| == |elements|
    ensures forall i :: 0 <= i < |r| ==> r[i] == ParamDocOf(elements[i])
  {
    seq(|elements|, i requires 0 <= i < |elements| => ParamDocOf(elements[i]))
  }

  /** One more element adds its record at the end. */
  lemma ParamDocsSnoc(elements: seq<Element>, i: nat)
    requires i < |elements|
    ensures ParamDocs(elements[..i + 1]) == ParamDocs(elements[..i]) + [ParamDocOf(elements[i])]
  {
    var a := ParamDocs(elements[..i + 1]);
    var b := ParamDocs(elements[..i]) + [ParamDocOf(elements[i])];
    assert |a| == |b|;
    forall k | 0 <= k < |a|
      ensures a[k] == b[k]
    {
      assert elements[..i + 1][k] == elements[k];
      if k < i {
        assert elements[..i][k] == elements[k];
      }
    }
  }

  /** What `parseDoc` makes of the documentation, given what the browser's
      parser finds in it after `replaceParam`. */
  function ParsedDocOf(doc: string, dom: string -> DocTree): ParsedDoc
  {
    var tree := dom(ReplaceParam(doc));
    var summary := if |tree.summaries| > 0 then NonEmpty(Some(Trim(tree.summaries[0].innerText))) else None;
    var params := ParamDocs(tree.parameters);
    if |tree.returnElements| == 1 then
      var r := tree.returnElements[0];
      ParsedDoc(summary, params, NonEmpty(Attribute(r, "type")), NonEmpty(Some(Trim(r.innerText))))
    else
      ParsedDoc(summary, params, None, None)
  }

  /** `parseDoc`, with the browser's parser as the parameter `dom`. */
  method ParseDoc(doc: string, dom: string -> DocTree) returns (parsed: ParsedDoc)
    ensures parsed == ParsedDocOf(doc, dom)
  {
    var tree := dom(ReplaceParam(doc));
    var summary := if |tree.summaries| > 0 then NonEmpty(Some(Trim(tree.summaries[0].innerText))) else None;
    var params: seq<ParamDoc> := [];
    var i := 0;
    while i < |tree.parameters|
      invariant 0 <= i <= |tree.parameters|
      invariant params == ParamDocs(tree.parameters[..i])
    {
      ParamDocsSnoc(tree.parameters, i);
      params := params + [ParamDocOf(tree.parameters[i])];
      i := i + 1;
    }
    assert tree.parameters[..i] == tree.parameters;
    var returnType: Option<string> := None;
    var returnDesc: Option<string> := None;
    if |tree.returnElements| == 1 {
      returnType := Attribute(tree.returnElements[0], "type");
      returnDesc := Some(Trim(tree.returnElements[0].innerText));
    }
    parsed := ParsedDoc(summary, params, NonEmpty(returnType), NonEmpty(returnDesc));
  }

  // ------------------------------------------------------------------
  // ParamInfo and FuncInfo

  /** A parameter as `parseFunc` describes it: its name (`""` when the list
      ran out) and the documentation entry it was given, if any. */
  datatype ParamInfo = ParamInfo(name: string, doc: Option<ParamDoc>)

  /** The `ParamInfo` constructor: a missing name becomes `""`. */
  function NewParamInfo(name: Option<string>, doc: Option<ParamDoc>): ParamInfo
  {
    ParamInfo(name.GetOr(""), doc)
  }

  /** `getDesc`: the description, `""` when undocumented. */
  function Description(p: ParamInfo): string
  {
    match p.doc
    case None => ""
    case Some(d) => d.description
  }

  /** `getType()` as `+` renders it: `undefined` without a documentation
      entry, `null` for an entry without a type. */
  function TypeConcatText(p: ParamInfo): string
  {
    match p.doc
    case None => "undefined"
    case Some(d) => match d.typeName case None => "null" case Some(t) => t
  }

  /** `getType()` as `Array.join` renders it: `""` for undefined and null. */
  function TypeJoinText(p: ParamInfo): string
  {
    match p.doc
    case None => ""
    case Some(d) => d.typeName.GetOr("")
  }

  datatype FuncInfo = FuncInfo(
    name: Option<string>,
    summary: string,
    params: seq<ParamInfo>,
    returnType: Option<string>,
    returnDesc: Option<string>)

  // ------------------------------------------------------------------
  // parseFunc

  /** `parsedParams[i]`, undefined past the end. */
  function ParamAt(names: seq<string>, i: nat): Option<string>
  {
    if i < |names| then Some(names[i]) else None
  }

  /** `tmp.name === param`: undefined matches no entry, not even one
      without a name. */
  predicate DocMatches(d: ParamDoc, param: Option<string>)
  {
    param.Some? && d.name == param
  }

  /** The first documentation entry for `param`. */
  function FirstDoc(docs: seq<ParamDoc>, param: Option<string>): (r: Option<ParamDoc>)
    ensures r.Some? ==> r.value in docs && DocMatches(r.value, param)
    ensures r.None? <==> forall k :: 0 <= k < |docs| ==> !DocMatches(docs[k], param)
  {
    if docs == [] then None
    else if DocMatches(docs[0], param) then Some(docs[0])
    else
      var rest := FirstDoc(docs[1..], param);
      assert forall k :: 1 <= k < |docs| ==> docs[k] == docs[1..][k - 1];
      rest
  }

  /** The documentation `parseFunc` attaches to the `i`-th parameter: its own
      entry, or else, since `paramDoc` is never reset, the one attached to
      the parameter before it. */
  function CarriedDoc(names: seq<string>, docs: seq<ParamDoc>, i: nat): Option<ParamDoc>
  {
    match FirstDoc(docs, ParamAt(names, i))
    case Some(d) => Some(d)
    case None => if i == 0 then None else CarriedDoc(names, docs, i - 1)
  }

  /** The attached entry is the entry of the nearest parameter at or before
      `i` that has one; a parameter gets none exactly when no parameter up to
      it has one, and then it reads as an empty description and no type. */
  lemma {:induction false} CarriedDocIsNearest(names: seq<string>, docs: seq<ParamDoc>, i: nat)
    ensures CarriedDoc(names, docs, i).Some? ==>
      exists k :: 0 <= k <= i && FirstDoc(docs, ParamAt(names, k)) == CarriedDoc(names, docs, i)
        && forall m :: k < m <= i ==> FirstDoc(docs, ParamAt(names, m)).None?
    ensures CarriedDoc(names, docs, i).None? <==> forall k :: 0 <= k <= i ==> FirstDoc(docs, ParamAt(names, k)).None?
    ensures CarriedDoc(names, docs, i).None? ==>
      Description(NewParamInfo(ParamAt(names, i), None)) == "" && TypeJoinText(NewParamInfo(ParamAt(names, i), None)) == ""
  {
    if CarriedDoc(names, docs, i).Some? {
      var k := CarriedDocSource(names, docs, i);
    }
    CarriedDocNone(names, docs, i);
  }

  /** Where the attached entry comes from. */
  lemma {:induction false} CarriedDocSource(names: seq<string>, docs: seq<ParamDoc>, i: nat) returns (k: nat)
    requires CarriedDoc(names, docs, i).Some?
    ensures k <= i && FirstDoc(docs, ParamAt(names, k)) == CarriedDoc(names, docs, i)
    ensures forall m :: k < m <= i ==> FirstDoc(docs, ParamAt(names, m)).None?
  {
    if FirstDoc(docs, ParamAt(names, i)).Some? {
      k := i;
    } else {
      k := CarriedDocSource(names, docs, i - 1);
    }
  }

  /** No entry is attached exactly when no parameter up to `i` has one. */
  lemma {:induction false} CarriedDocNone(names: seq<string>, docs: seq<ParamDoc>, i: nat)
    ensures CarriedDoc(names, docs, i).None? <==> forall k :: 0 <= k <= i ==> FirstDoc(docs, ParamAt(names, k)).None?
  {
    if i > 0 && FirstDoc(docs, ParamAt(names, i)).None? {
      CarriedDocNone(names, docs, i - 1);
    }
  }

  /** The first entry for `param` is the one at `j` when none before it matches. */
  lemma {:induction false} FirstDocAt(docs: seq<ParamDoc>, param: Option<string>, j: nat)
    requires j < |docs| && DocMatches(docs[j], param)
    requires forall k :: 0 <= k < j ==> !DocMatches(docs[k], param)
    ensures FirstDoc(docs, param) == Some(docs[j])
  {
    if j > 0 {
      FirstDocAt(docs[1..], param, j - 1);
    }
  }

  /** The inner loop of `parseFunc`: the first documentation entry whose
      name is `param`, stopping at the first match. */
  method FindParamDoc(docs: seq<ParamDoc>, param: Option<string>) returns (found: Option<ParamDoc>)
    ensures found == FirstDoc(docs, param)
  {
    found := None;
    var j := 0;
    while j < |docs|
      invariant 0 <= j <= |docs|
      invariant forall k :: 0 <= k < j ==> !DocMatches(docs[k], param)
    {
      var tmp := docs[j];
      if DocMatches(tmp, param) {
        FirstDocAt(docs, param, j);
        found := Some(tmp);
        break;
      }
      j := j + 1;
    }
  }

  /** The loop of `parseFunc` over `arity` parameters: each gets its name
      from the parameter list and the documentation entry found for it, or
      keeps the entry found for the one before it. */
  method AlignParams(parsedParams: seq<string>, docs: seq<ParamDoc>, arity: nat) returns (params: seq<ParamInfo>)
    ensures |params| == arity
    ensures forall k :: 0 <= k < arity ==>
      params[k] == NewParamInfo(ParamAt(parsedParams, k), CarriedDoc(parsedParams, docs, k))
  {
    params := [];
    var paramDoc: Option<ParamDoc> := None;
    var i := 0;
    while i < arity
      invariant 0 <= i <= arity
      invariant params == ParamInfos(parsedParams, docs, i)
      invariant paramDoc == if i == 0 then None else CarriedDoc(parsedParams, docs, i - 1)
    {
      var param := ParamAt(parsedParams, i);
      var found := FindParamDoc(docs, param);
      if found.Some? {
        paramDoc := found;
      }
      ParamInfosSnoc(parsedParams, docs, i);
      params := params + [NewParamInfo(param, paramDoc)];
      i := i + 1;
    }
  }

  /** The first `n` parameters with their names and carried entries. */
  function ParamInfos(names: seq<string>, docs: seq<ParamDoc>, n: nat): (r: seq<ParamInfo>)
    ensures |r| == n
    ensures forall k :: 0 <= k < n ==> r[k] == NewParamInfo(ParamAt(names, k), CarriedDoc(names, docs, k))
  {
    seq(n, k requires 0 <= k < n => NewParamInfo(ParamAt(names, k), CarriedDoc(names, docs, k)))
  }

  lemma ParamInfosSnoc(names: seq<string>, docs: seq<ParamDoc>, n: nat)
    ensures ParamInfos(names, docs, n + 1)
      == ParamInfos(names, docs, n) + [NewParamInfo(ParamAt(names, n), CarriedDoc(names, docs, n))]
  {
  }

  /** The result `parseFunc` promises, given the declaration the patterns
      found and the parsed documentation. */
  predicate IsFuncInfoOf(info: FuncInfo, decl: Declaration, parsed: ParsedDoc, arity: nat)
  {
    var names := ParseParamList(decl.params);
    && info.name == NameOf(decl)
    && info.summary == parsed.summary.GetOr("")
    && |info.params| == arity
    && (forall i :: 0 <= i < arity ==>
          info.params[i] == NewParamInfo(ParamAt(names, i), CarriedDoc(names, parsed.params, i)))
    && info.returnType == parsed.returnType
    && info.returnDesc == parsed.returnDesc
  }

  /** `parseFunc` on a function with source text `source` and `length`
      `arity`; `dom` is the browser's parser that `parseDoc` relies on.
      Reading group 2 of a failed match is a `TypeError`. */
  method ParseFunc(source: string, arity: nat, dom: string -> DocTree) returns (r: Outcome<FuncInfo>)
    ensures DeclarationOf(source).None? ==> r == Throws(TypeError)
    ensures DeclarationOf(source).Some? ==>
      r.Ok? && IsFuncInfoOf(r.value, DeclarationOf(source).value, ParsedDocOf(DocText(source), dom), arity)
  {
    var res := DeclarationOf(source);
    var doc := GetDoc(source);
    var parsedDoc := ParseDoc(doc, dom);
    if res.None? {
      return Throws(TypeError);
    }
    var parsedParams := ParseParamList(res.value.params);
    var params := AlignParams(parsedParams, parsedDoc.params, arity);
    r := Ok(FuncInfo(
      NameOf(res.value),
      parsedDoc.summary.GetOr(""),
      params,
      parsedDoc.returnType,
      parsedDoc.returnDesc));
  }

  // ------------------------------------------------------------------
  // toString

  /** `ParamInfo.toString`: `-name <type>`, a newline, the indented description. */
  function ParamHelp(p: ParamInfo): string
  {
    ParamLine(p) + "\n" + "    " + Description(p)
  }

  /** The first line of a parameter's help: `-name <type>`. */
  function ParamLine(p: ParamInfo): string
  {
    "-" + p.name + " <" + TypeJoinText(p) + ">"
  }

  /** The `<type> ` prefix of the syntax line, present only for a non-empty
      return type. */
  function ReturnSyntax(info: FuncInfo): string
  {
    match info.returnType
    case Some(t) => if t != "" then "<" + t + "> " else ""
    case None => ""
  }

  /** `getName()` as `Array.join` renders it: `""` for null. */
  function NameText(info: FuncInfo): string
  {
    info.name.GetOr("")
  }

  function SyntaxEntry(p: ParamInfo): string
  {
    TypeConcatText(p) + " " + p.name
  }

  function HelpEntry(p: ParamInfo): string
  {
    "    " + ReplaceFirst(ParamHelp(p), "\n", "\n    ")
  }

  /** The help text `FuncInfo.toString` assembles from the pieces its loop
      collects. */
  function HelpText(info: FuncInfo): string
  {
    HelpLayout(info, Join(SyntaxEntries(info.params), ", "), Join(HelpEntries(info.params), "\n\n"))
  }

  /** The syntax entries of the parameters, in order. */
  function SyntaxEntries(ps: seq<ParamInfo>): (r: seq<string>)
    ensures |r| == |ps|
  {
    if ps == [] then [] else SyntaxEntries(ps[..|ps| - 1]) + [SyntaxEntry(ps[|ps| - 1])]
  }

  /** The help entries of the parameters, in order. */
  function HelpEntries(ps: seq<ParamInfo>): (r: seq<string>)
    ensures |r| == |ps|
  {
    if ps == [] then [] else HelpEntries(ps[..|ps| - 1]) + [HelpEntry(ps[|ps| - 1])]
  }

  /** The sections NAME, SYNOPSIS, SYNTAX, PARAMETERS and OUTPUTS. */
  function HelpLayout(info: FuncInfo, syntax: string, help: string): string
  {
    var returnSyntax := ReturnSyntax(info);
    "NAME\n" + "    " + NameText(info) + "\n\n"
    + "SYNOPSIS\n" + "    " + ReplaceFirst(info.summary, "\n", "\n    ") + "\n\n"
    + "SYNTAX\n" + "    " + returnSyntax + NameText(info) + "(" + syntax + ")\n\n"
    + "PARAMETERS\n" + help + "\n\n"
    + "OUTPUTS\n" + "    " + Trim(returnSyntax) + "\n"
    + "        " + ReplaceFirst(info.returnDesc.GetOr(""), "\n", "\n        ")
  }

  /** One more parameter adds one entry to each list. */
  lemma EntriesSnoc(ps: seq<ParamInfo>, i: nat)
    requires i < |ps|
    ensures SyntaxEntries(ps[..i + 1]) == SyntaxEntries(ps[..i]) + [SyntaxEntry(ps[i])]
    ensures HelpEntries(ps[..i + 1]) == HelpEntries(ps[..i]) + [HelpEntry(ps[i])]
  {
    assert ps[..i + 1][..i] == ps[..i];
  }

  /** `FuncInfo.toString`. */
  method FuncInfoToString(info: FuncInfo) returns (text: string)
    ensures text == HelpText(info)
  {
    var params: seq<string> := [];
    var paramsHelp: seq<string> := [];
    var i := 0;
    while i < |info.params|
      invariant 0 <= i <= |info.params|
      invariant params == SyntaxEntries(info.params[..i])
      invariant paramsHelp == HelpEntries(info.params[..i])
    {
      var paramNfo := info.params[i];
      EntriesSnoc(info.params, i);
      params := params + [SyntaxEntry(paramNfo)];
      paramsHelp := paramsHelp + [HelpEntry(paramNfo)];
      i := i + 1;
    }
    assert info.params[..i] == info.params;
    text := HelpLayout(info, Join(params, ", "), Join(paramsHelp, "\n\n"));
  }

  /** The OUTPUTS line shows the return type in angle brackets, without the
      space the syntax line puts after it, and nothing without a type. */
  lemma OutputsTypeLine(info: FuncInfo)
    ensures Trim(ReturnSyntax(info)) ==
      if info.returnType.Some? && info.returnType.value != "" then "<" + info.returnType.value + ">" else ""
  {
    if info.returnType.Some? && info.returnType.value != "" {
      var t := "<" + info.returnType.value + ">";
      TrimExact([], t, " ");
      assert [] + t + " " == ReturnSyntax(info);
    } else {
      TrimExact([], [], []);
    }
  }

  /** Indenting with `replace("\n", ...)` indents only the second line: the
      text after the first newline is kept as it is, newlines included. */
  lemma IndentsFirstBreakOnly(first: string, rest: string, indent: string)
    requires '\n' !in first
    ensures ReplaceFirst(first + "\n" + rest, "\n", "\n" + indent) == first + "\n" + indent + rest
  {
    ReplaceFirstChar(first, '\n', rest, "\n" + indent);
  }

  /** A parameter's help entry: the `-name <type>` line indented by four,
      the description below it indented by eight. */
  lemma HelpEntryShape(p: ParamInfo)
    requires '\n' !in p.name && '\n' !in TypeJoinText(p)
    ensures HelpEntry(p) == "    " + ParamLine(p) + "\n" + "        " + Description(p)
  {
    var first, d := ParamLine(p), Description(p);
    assert '\n' !in first;
    assert ParamHelp(p) == first + "\n" + ("    " + d);
    IndentsFirstBreakOnly(first, "    " + d, "    ");
    assert "\n" + "    " == "\n    ";
    assert "    " + "    " == "        ";
    Regroup("    ", first, "\n", "    ", d);
  }

  lemma Regroup(a: string, b: string, c: string, e: string, d: string)
    ensures a + (b + c + e + (e + d)) == a + b + c + (e + e) + d
  {
  }

  // ------------------------------------------------------------------
  // cbc.parse.func

  /** The checks `cbc.parse.func` makes on its argument. */
  const FuncChain: seq<CbcAssert.Op> := [CbcAssert.Defined, CbcAssert.NotNull, CbcAssert.Func]

  /** The argument must be defined, not null, and a function, in that order. */
  lemma FuncCheck(value: JsValue)
    ensures CbcAssert.RunChain("func", value, FuncChain) ==
      if value.Undefined? then Some(Error(CbcAssert.Message(CbcAssert.Defined, "func")))
      else if value.Null? then Some(Error(CbcAssert.Message(CbcAssert.NotNull, "func")))
      else if !value.Function? then Some(Error(CbcAssert.Message(CbcAssert.Func, "func")))
      else None
  {
    var s1, s2 := [CbcAssert.Defined], [CbcAssert.Defined, CbcAssert.NotNull];
    assert s1 == [] + [CbcAssert.Defined] && s2 == s1 + [CbcAssert.NotNull] && FuncChain == s2 + [CbcAssert.Func];
    CbcAssert.OfferedCharacterization(s1);
    CbcAssert.OfferedCharacterization(s2);
    assert CbcAssert.Func in CbcAssert.TypeAsserts;
    assert CbcAssert.Offered([]) == CbcAssert.InitialIs;
    CbcAssert.RunChainStep("func", value, [], CbcAssert.Defined);
    CbcAssert.RunChainStep("func", value, s1, CbcAssert.NotNull);
    CbcAssert.RunChainStep("func", value, s2, CbcAssert.Func);
  }

  /** `cbc.assert.param("func", value).is.defined().and.not.null().and.func()`:
      the error of the first check the argument fails, if any. */
  method CheckFuncArgument(value: JsValue) returns (failure: Option<JsError>)
    ensures failure == CbcAssert.RunChain("func", value, FuncChain)
    ensures failure.None? <==> value.Function?
  {
    FuncCheck(value);
    CbcAssert.NameCheck(Str("func"));
    var param := CbcAssert.Param(Str("func"), value);
    var check := param.value;
    var answer := check.Apply(CbcAssert.Defined);
    if answer.Threw? {
      return Some(Error(answer.message));
    }
    answer := check.Apply(CbcAssert.NotNull);
    if answer.Threw? {
      return Some(Error(answer.message));
    }
    answer := check.Apply(CbcAssert.Func);
    if answer.Threw? {
      return Some(Error(answer.message));
    }
    return None;
  }

  /** `cbc.parse.func(value)`, where `source` and `arity` are what the
      function's `toString()` and `length` give. */
  method Func(value: JsValue, source: string, arity: nat, dom: string -> DocTree) returns (r: Outcome<FuncInfo>)
    ensures CbcAssert.RunChain("func", value, FuncChain).Some? ==>
      r == Throws(CbcAssert.RunChain("func", value, FuncChain).value)
    ensures CbcAssert.RunChain("func", value, FuncChain).None? && DeclarationOf(source).None? ==>
      r == Throws(TypeError)
    ensures CbcAssert.RunChain("func", value, FuncChain).None? && DeclarationOf(source).Some? ==>
      r.Ok? && IsFuncInfoOf(r.value, DeclarationOf(source).value, ParsedDocOf(DocText(source), dom), arity)
  {
    var failure := CheckFuncArgument(value);
    if failure.Some? {
      return Throws(failure.value);
    }
    r := ParseFunc(source, arity, dom);
  }
}
