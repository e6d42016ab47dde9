/** `cbc.contract`: turning a function's `///` documentation into a
    contract. `assertionString` writes the `cbc.assert` chain one parameter
    needs, `wrap` writes the source of a wrapper function that runs those
    chains before calling the original, and every `Contract` created is kept
    in the module's `contracts` list, which `all` returns. */
module CbcContract {
  import opened Js
  import opened Strings
  import CbcAssert
  import opened CbcParse

  // ------------------------------------------------------------------
  // The parameter accessors the contract code reads

  /** `get_optional()`: the documentation entry says `optional="true"`. */
  predicate IsOptional(p: ParamInfo)
  {
    p.doc.Some? && p.doc.value.optional
  }

  /** `get_mayBeNull()`: the documentation entry says `mayBeNull="true"`. */
  predicate MayBeNull(p: ParamInfo)
  {
    p.doc.Some? && p.doc.value.mayBeNull
  }

  /** `get_type()`: the documented type, `null` when there is none. */
  function TypeName(p: ParamInfo): Option<string>
  {
    if p.doc.Some? then p.doc.value.typeName else None
  }

  // ------------------------------------------------------------------
  // assertionString

  /** The name of the check for a documented type: the type lower-cased,
      then the first `function` written `func` and the first `boolean`
      written `bool`. */
  function TypeCheckName(t: string): string
  {
    ReplaceFirst(ReplaceFirst(Lower(t), "function", "func"), "boolean", "bool")
  }

  /** The check a documented type calls, when `cbc.assert` has one by that
      name. */
  function TypeOp(t: string): Option<CbcAssert.Op>
  {
    var n := TypeCheckName(t);
    if n == "bool" then Some(CbcAssert.Bool)
    else if n == "func" then Some(CbcAssert.Func)
    else if n == "number" then Some(CbcAssert.Number)
    else if n == "object" then Some(CbcAssert.Object)
    else if n == "string" then Some(CbcAssert.String)
    else None
  }

  /** A type whose lower-cased name is the `typeof` tag a type check
      compares against calls exactly that check: `Function` calls `func`,
      `Boolean` calls `bool`, and so on. */
  lemma TypeCheckOfTag(t: string, op: CbcAssert.Op)
    requires op in CbcAssert.TypeAsserts && Lower(t) == CbcAssert.TypeTag(op)
    ensures TypeCheckName(t) == CbcAssert.OpName(op)
    ensures TypeOp(t) == Some(op)
  {
    var l := Lower(t);
    if op == CbcAssert.Func {
      ReplaceFirstWhole("function", "func");
      ReplaceFirstShort("func", "boolean", "bool");
    } else if op == CbcAssert.Bool {
      ReplaceFirstShort(l, "function", "func");
      ReplaceFirstWhole("boolean", "bool");
    } else {
      ReplaceFirstShort(l, "function", "func");
      ReplaceFirstShort(l, "boolean", "bool");
    }
  }

  /** The type check call `assertionString` writes, if a type is documented. */
  function TypeCall(p: ParamInfo): seq<string>
  {
    match TypeName(p)
    case Some(t) => [TypeCheckName(t) + "()"]
    case None => []
  }

  /** The calls `assertionString` collects: `defined()` unless optional,
      `notNull()` unless it may be null, then the type check if a type is
      documented. */
  function Assertions(p: ParamInfo): seq<string>
  {
    PresenceCalls(p) + TypeCall(p)
  }

  /** `defined()` unless optional, then `notNull()` unless it may be null. */
  function PresenceCalls(p: ParamInfo): seq<string>
  {
    (if !IsOptional(p) then ["defined()"] else [])
    + (if !MayBeNull(p) then ["notNull()"] else [])
  }

  /** `assertionString`: the chain `cbc.assert.param("n", n).is.c1().and.c2();`
      for the parameter `n`, or nothing when no check is needed. */
  function AssertionText(p: ParamInfo): (r: string)
    ensures r == "" <==> IsOptional(p) && MayBeNull(p) && TypeName(p).None?
    ensures r != "" ==> r[0] == 'c' && r[|r| - 1] == ';'
  {
    var assertions := Assertions(p);
    if |assertions| > 0 then
      "cbc.assert.param(\"" + p.name + "\", " + p.name + ").is." + Join(assertions, ".and.") + ";"
    else
      ""
  }

  /** The type is undocumented, or `cbc.assert` has a check for it. */
  predicate KnownType(p: ParamInfo)
  {
    TypeName(p).None? || TypeOp(TypeName(p).value).Some?
  }

  /** The checks the emitted chain calls, in order. An unknown type's call
      is left off: `.and` has no member by that name. */
  function ChainOps(p: ParamInfo): seq<CbcAssert.Op>
  {
    PresenceOps(p) + TypeOps(p)
  }

  /** `defined` unless optional, then `notNull` unless it may be null. */
  function PresenceOps(p: ParamInfo): (r: seq<CbcAssert.Op>)
    ensures |r| == (if IsOptional(p) then 0 else 1) + (if MayBeNull(p) then 0 else 1)
    ensures forall i :: 0 <= i < |r| ==> r[i] == if i == 0 && !IsOptional(p) then CbcAssert.Defined else CbcAssert.NotNull
  {
    (if !IsOptional(p) then [CbcAssert.Defined] else [])
    + (if !MayBeNull(p) then [CbcAssert.NotNull] else [])
  }

  /** The type check, when the type is documented and known. */
  function TypeOps(p: ParamInfo): (r: seq<CbcAssert.Op>)
    ensures |r| <= 1
    ensures forall i :: 0 <= i < |r| ==> r[i] in CbcAssert.TypeAsserts
  {
    match TypeName(p)
    case Some(t) => (match TypeOp(t) case Some(op) => [op] case None => [])
    case None => []
  }

  /** `op()`, the text of one call in a chain. */
  function CallText(op: CbcAssert.Op): string
  {
    CbcAssert.OpName(op) + "()"
  }

  /** `calls` spells out `ops`, call by call. */
  predicate Spells(calls: seq<string>, ops: seq<CbcAssert.Op>)
  {
    |calls| == |ops| && forall i :: 0 <= i < |ops| ==> calls[i] == CallText(ops[i])
  }

  /** For a known type, the calls written out are the calls of `ChainOps`. */
  lemma AssertionsSpellChain(p: ParamInfo)
    requires KnownType(p)
    ensures |Assertions(p)| == |ChainOps(p)|
    ensures forall i :: 0 <= i < |ChainOps(p)| ==> Assertions(p)[i] == CallText(ChainOps(p)[i])
  {
    PresenceSpells(p);
    TypeSpells(p);
    SpellsAppend(PresenceCalls(p), PresenceOps(p), TypeCall(p), TypeOps(p));
  }

  lemma PresenceSpells(p: ParamInfo)
    ensures Spells(PresenceCalls(p), PresenceOps(p))
  {
    if !IsOptional(p) && !MayBeNull(p) {
      assert PresenceCalls(p) == ["defined()", "notNull()"];
    } else if !IsOptional(p) {
      assert PresenceCalls(p) == ["defined()"];
    } else if !MayBeNull(p) {
      assert PresenceCalls(p) == ["notNull()"];
    }
  }

  lemma TypeSpells(p: ParamInfo)
    requires KnownType(p)
    ensures Spells(TypeCall(p), TypeOps(p))
  {
    if TypeName(p).Some? {
      var t := TypeName(p).value;
      var op := TypeOp(t).value;
      assert TypeOps(p) == [op] && TypeCall(p) == [TypeCheckName(t) + "()"];
      assert TypeCheckName(t) == CbcAssert.OpName(op) by {
        TypeOpName(t);
      }
    }
  }

  /** A known type's check is named by the type check name. */
  lemma TypeOpName(t: string)
    requires TypeOp(t).Some?
    ensures CbcAssert.OpName(TypeOp(t).value) == TypeCheckName(t)
  {
  }

  lemma SpellsAppend(a: seq<string>, x: seq<CbcAssert.Op>, b: seq<string>, y: seq<CbcAssert.Op>)
    requires Spells(a, x) && Spells(b, y)
    ensures Spells(a + b, x + y)
  {
    forall i | 0 <= i < |x + y|
      ensures (a + b)[i] == CallText((x + y)[i])
    {
      if i < |x| {
        assert (a + b)[i] == a[i] && (x + y)[i] == x[i];
      } else {
        assert (a + b)[i] == b[i - |x|] && (x + y)[i] == y[i - |x|];
      }
    }
  }

  /** Every chain `assertionString` writes calls only checks that are on
      offer when it reaches them: a legal path through `newIs`. */
  lemma EmittedChainIsLegal(p: ParamInfo)
    ensures CbcAssert.LegalPath(ChainOps(p))
  {
    var ops, po := ChainOps(p), PresenceOps(p);
    forall i | 0 <= i < |ops|
      ensures ops[i] in CbcAssert.Offered(ops[..i])
    {
      var prefix := ops[..i];
      assert forall k :: 0 <= k < |prefix| ==> prefix[k] == po[k];
      if i < |po| {
        assert ops[i] == po[i];
        assert ops[i] !in prefix by {
          if i == 1 {
            assert prefix == [po[0]] && po[0] != po[1];
          }
        }
      }
      OfferedAfterPresence(prefix, ops[i]);
    }
  }

  /** After `defined` and `notNull` checks only, every type check is on
      offer, and so are `defined` and `notNull` when not yet made. */
  lemma OfferedAfterPresence(prefix: seq<CbcAssert.Op>, op: CbcAssert.Op)
    requires forall k :: 0 <= k < |prefix| ==> prefix[k] == CbcAssert.Defined || prefix[k] == CbcAssert.NotNull
    requires op in CbcAssert.TypeAsserts || ((op == CbcAssert.Defined || op == CbcAssert.NotNull) && op !in prefix)
    ensures op in CbcAssert.Offered(prefix)
  {
    CbcAssert.OfferedCharacterization(prefix);
    assert CbcAssert.NoTypeAssert(prefix);
  }

  /** What the parameter's documentation admits: defined unless optional,
      not null unless it may be null, and of the documented type. */
  predicate Admits(p: ParamInfo, value: JsValue)
  {
    && (!IsOptional(p) ==> !value.Undefined?)
    && (!MayBeNull(p) ==> !value.Null?)
    && (TypeName(p).Some? && TypeOp(TypeName(p).value).Some? ==>
          CbcAssert.Meets(TypeOp(TypeName(p).value).value, value))
  }

  /** The value meets every check of the emitted chain exactly when the
      documentation admits it. */
  lemma MeetsChainIff(p: ParamInfo, value: JsValue)
    ensures (forall i :: 0 <= i < |ChainOps(p)| ==> CbcAssert.Meets(ChainOps(p)[i], value)) <==> Admits(p, value)
  {
    assert ChainOps(p) == PresenceOps(p) + TypeOps(p);
    CbcAssert.MeetsAllAppend(PresenceOps(p), TypeOps(p), value);
    PresenceMeets(p, value);
    TypeMeets(p, value);
  }

  /** The presence calls pass exactly when the value is defined unless
      optional and not null unless it may be null. */
  lemma PresenceMeets(p: ParamInfo, value: JsValue)
    ensures CbcAssert.MeetsAll(PresenceOps(p), value) <==>
      (!IsOptional(p) ==> !value.Undefined?) && (!MayBeNull(p) ==> !value.Null?)
  {
    var po := PresenceOps(p);
    if !IsOptional(p) {
      assert po[0] == CbcAssert.Defined;
    }
    if !MayBeNull(p) {
      assert po[if IsOptional(p) then 0 else 1] == CbcAssert.NotNull;
    }
  }

  /** The type call passes exactly when the value has the documented type,
      or no known type is documented. */
  lemma TypeMeets(p: ParamInfo, value: JsValue)
    ensures CbcAssert.MeetsAll(TypeOps(p), value) <==>
      (TypeName(p).Some? && TypeOp(TypeName(p).value).Some? ==>
        CbcAssert.Meets(TypeOp(TypeName(p).value).value, value))
  {
    if TypeName(p).Some? && TypeOp(TypeName(p).value).Some? {
      assert TypeOps(p)[0] == TypeOp(TypeName(p).value).value;
    }
  }

  /** The emitted chain lets a value through exactly when the documentation
      admits it; otherwise it throws the message of the first check the
      value fails. */
  lemma EmittedChainChecks(p: ParamInfo, value: JsValue)
    ensures CbcAssert.RunChain(p.name, value, ChainOps(p)).None? <==> Admits(p, value)
    ensures CbcAssert.RunChain(p.name, value, ChainOps(p)).Some? ==>
      exists i :: 0 <= i < |ChainOps(p)| && !CbcAssert.Meets(ChainOps(p)[i], value)
        && (forall j :: 0 <= j < i ==> CbcAssert.Meets(ChainOps(p)[j], value))
        && CbcAssert.RunChain(p.name, value, ChainOps(p)) == Some(Error(CbcAssert.Message(ChainOps(p)[i], p.name)))
  {
    EmittedChainIsLegal(p);
    CbcAssert.ChainPassesIff(p.name, value, ChainOps(p));
    MeetsChainIff(p, value);
  }

  /** A parameter documented with a type whose lower-cased name is a
      `typeof` tag gets the presence calls and then that type's check:
      `String` gives `defined().and.notNull().and.string()` for a required,
      non-null parameter, `Boolean` gives `notNull().and.bool()` for an
      optional one. */
  lemma AssertionsForTag(p: ParamInfo, t: string, op: CbcAssert.Op)
    requires TypeName(p) == Some(t)
    requires op in CbcAssert.TypeAsserts && Lower(t) == CbcAssert.TypeTag(op)
    ensures Assertions(p) == PresenceCalls(p) + [CallText(op)]
    ensures ChainOps(p) == PresenceOps(p) + [op]
  {
    TypeCheckOfTag(t, op);
  }

  // ------------------------------------------------------------------
  // wrap

  predicate IsNotOpenParen(c: char) { c != '(' }

  /** Group 1 of `paramPattern`, `^[^(]+\(([^)]*)`: the raw text between the
      first `(`, which must not be the first character, and the next `)`. */
  function ParamListText(s: string): (r: Option<string>)
    ensures r.Some? ==> ')' !in r.value
  {
    var o := Span(s, 0, IsNotOpenParen);
    if 0 < o < |s| then
      var e := Span(s, o + 1, IsNotCloseParen);
      SpanRun(s, o + 1, IsNotCloseParen);
      Some(s[o + 1..e])
    else
      None
  }

  /** `paramPattern` finds the parameters after the first `(`. */
  lemma ParamListAt(s: string, o: nat, e: nat)
    requires 0 < o < e <= |s| && s[o] == '('
    requires Run(s, 0, o, IsNotOpenParen)
    requires Run(s, o + 1, e, IsNotCloseParen) && (e == |s| || s[e] == ')')
    ensures ParamListText(s) == Some(s[o + 1..e])
  {
    SpanIs(s, 0, IsNotOpenParen, o);
    SpanIs(s, o + 1, IsNotCloseParen, e);
  }

  /** On a `function name(...)` declaration the wrapper's parameter text is
      the one `parseFunc` reads. */
  lemma ParamListOfKeyword(s: string, a: nat, b: nat, c: nat, d: nat, e: nat)
    requires KeywordForm(s, a, b, c, d, e)
    ensures ParamListText(s) == Some(s[d + 1..e])
    ensures DeclarationOf(s) == Some(Declaration(s[b..c], s[d + 1..e], e))
  {
    FuncPatternMatches(s, a, b, c, d, e);
    KeywordHasNoOpenParen(s, a, b, c, d);
    ParamListAt(s, d, e);
  }

  /** Nothing before the `(` of a `function name(` declaration is a `(`. */
  lemma KeywordHasNoOpenParen(s: string, a: nat, b: nat, c: nat, d: nat)
    requires a + 8 <= b <= c <= d <= |s|
    requires Run(s, 0, a, IsSpace) && s[a..a + 8] == "function"
    requires Run(s, a + 8, b, IsSpace) && Run(s, b, c, IsNameChar) && Run(s, c, d, IsSpace)
    ensures Run(s, 0, d, IsNotOpenParen)
  {
    forall k | 0 <= k < d
      ensures s[k] != '('
    {
      if a <= k < a + 8 {
        assert s[k] == s[a..a + 8][k - a];
      }
    }
  }

  /** The same for a `name : function (...)` declaration whose name holds
      no `(`. */
  lemma ParamListOfProperty(s: string, a: nat, b: nat, c: nat, d: nat, e: nat, g: nat)
    requires PropertyForm(s, a, b, c, d, e, g)
    requires Run(s, a, b, IsNotOpenParen)
    ensures ParamListText(s) == Some(s[e + 1..g])
  {
    PropertyHasNoOpenParen(s, a, b, c, d, e);
    ParamListAt(s, e, g);
  }

  /** Nothing before the `(` of a `name : function (` declaration is a `(`
      when the name holds none. */
  lemma PropertyHasNoOpenParen(s: string, a: nat, b: nat, c: nat, d: nat, e: nat)
    requires a <= b <= c && c + 1 < d && d + 8 <= e <= |s| && s[c] == ':'
    requires Run(s, 0, a, IsSpace) && Run(s, a, b, IsNotOpenParen) && Run(s, b, c, IsSpace)
    requires Run(s, c + 1, d, IsSpace) && s[d..d + 8] == "function" && Run(s, d + 8, e, IsSpace)
    ensures Run(s, 0, e, IsNotOpenParen)
  {
    forall k | 0 <= k < e
      ensures s[k] != '('
    {
      if d <= k < d + 8 {
        assert s[k] == s[d..d + 8][k - d];
      }
    }
  }

  /** The source of the wrapper: the original parameter text, the
      documentation as `///` lines, one assertion line per parameter, and
      the call of the original (whose result is not returned). */
  function WrapperText(paramText: string, doc: string, assertions: seq<string>): string
  {
    "function (" + paramText + (")" + " " + "{" + "\n" + WrapperBody(doc, assertions))
  }

  /** The wrapper's body: what `stripFuncDeclaration` leaves of it. */
  function WrapperBody(doc: string, assertions: seq<string>): string
  {
    "///" + Join(Split(doc, '\n'), "\n///") + "\n" + WrapperTail(assertions)
  }

  /** Each line prefixed with `///`. */
  function DocLines(lines: seq<string>): (r: seq<string>)
    ensures |r| == |lines|
    ensures forall i :: 0 <= i < |lines| ==> r[i] == "///" + lines[i]
  {
    seq(|lines|, i requires 0 <= i < |lines| => "///" + lines[i])
  }

  /** Joining with `"\n///"` after a leading `///` writes each line as a
      `///` line. */
  lemma {:induction false} JoinDocLines(lines: seq<string>)
    requires |lines| >= 1
    ensures "///" + Join(lines, "\n///") == Join(DocLines(lines), "\n")
    decreases |lines|
  {
    if |lines| > 1 {
      JoinDocLines(lines[1..]);
      assert DocLines(lines)[1..] == DocLines(lines[1..]);
      assert "///" + Join(lines, "\n///") == "///" + lines[0] + "\n" + ("///" + Join(lines[1..], "\n///"));
    }
  }

  /** A line that is empty, or starts with a character other than
      whitespace and `/`, is not a documentation line. */
  lemma NotDocLine(line: string)
    requires line == [] || (!IsSpace(line[0]) && line[0] != '/')
    ensures DocLineCapture(line).None?
  {
    if line != [] {
      SpanIs(line, 0, IsSpace, 0);
      assert line[0..] == line;
      var t := Trim(line);
      assert t != [] && t[0] == line[0];
    }
  }

  /** The first line of what follows the documentation in the wrapper is
      not a documentation line. */
  lemma FirstLineNotDoc(rest: string)
    requires rest != [] && (rest[0] == '\n' || rest[0] == 'c')
    ensures DocLineCapture(Split(rest, '\n')[0]).None?
  {
    match IndexOf(rest, '\n')
    case None =>
      NotDocLine(rest);
    case Some(k) =>
      assert Split(rest, '\n')[0] == rest[..k];
      NotDocLine(rest[..k]);
  }

  /** The text after the documentation lines in the wrapper. */
  function WrapperTail(assertions: seq<string>): string
  {
    Join(assertions, "\n") + "\n" + "func.apply(this, arguments);" + "\n" + "}"
  }

  /** Assertion lines that are empty or start with `c`, joined by
      newlines, start with a newline or with `c`, if with anything. */
  lemma AssertionBlockStart(assertions: seq<string>)
    requires forall i :: 0 <= i < |assertions| ==> assertions[i] == "" || assertions[i][0] == 'c'
    ensures Join(assertions, "\n") == [] || Join(assertions, "\n")[0] == '\n' || Join(assertions, "\n")[0] == 'c'
  {
    if |assertions| > 1 {
      var a := assertions[0];
      var rest := "\n" + Join(assertions[1..], "\n");
      assert Join(assertions, "\n") == a + rest;
      if a == "" {
        assert (a + rest)[0] == rest[0];
      } else {
        assert (a + rest)[0] == a[0];
      }
    }
  }

  /** The wrapper's tail starts with a newline or with `c`. */
  lemma WrapperTailStart(assertions: seq<string>)
    requires forall i :: 0 <= i < |assertions| ==> assertions[i] == "" || assertions[i][0] == 'c'
    ensures WrapperTail(assertions) != []
    ensures WrapperTail(assertions)[0] == '\n' || WrapperTail(assertions)[0] == 'c'
  {
    var j := Join(assertions, "\n");
    var t := "\n" + "func.apply(this, arguments);" + "\n" + "}";
    AssertionBlockStart(assertions);
    assert WrapperTail(assertions) == j + t;
    assert t[0] == '\n';
    if j == [] {
      assert (j + t)[0] == t[0];
    } else {
      assert (j + t)[0] == j[0];
    }
  }

  /** The wrapper is a keyword declaration with no name and the original
      parameter text; stripping it leaves the documentation lines and what
      follows. */
  lemma WrapperDeclaration(paramText: string, doc: string, assertions: seq<string>)
    requires ')' !in paramText
    ensures DeclarationOf(WrapperText(paramText, doc, assertions)) ==
      Some(Declaration("", paramText, 10 + |paramText|))
    ensures StripFuncDeclaration(WrapperText(paramText, doc, assertions)) == WrapperBody(doc, assertions)
  {
    var body := WrapperBody(doc, assertions);
    var h := "function (";
    var close := ")" + " " + "{" + "\n" + body;
    var s := WrapperText(paramText, doc, assertions);
    var e := 10 + |paramText|;
    assert s == h + paramText + close;
    assert forall k :: 0 <= k < 10 ==> s[k] == h[k];
    assert forall k :: 10 <= k < e ==> s[k] == paramText[k - 10];
    assert s[e..] == close;
    assert s[e] == ')';
    assert s[0..8] == "function";
    assert KeywordForm(s, 0, 9, 9, 9, e);
    assert s[9..9] == "" && s[10..e] == paramText;
    assert body[0] == '/';
    StripKeywordDeclaration(s, 0, 9, 9, 9, e, " ", "\n", body);
  }

  /** `getDoc` reads back from the wrapper exactly the documentation it was
      given. */
  lemma WrapperKeepsDoc(source: string, paramText: string, assertions: seq<string>)
    requires ')' !in paramText
    requires DocText(source) != ""
    requires forall i :: 0 <= i < |assertions| ==> assertions[i] == "" || assertions[i][0] == 'c'
    ensures DocText(WrapperText(paramText, DocText(source), assertions)) == DocText(source)
  {
    var doc := DocText(source);
    var sourceLines := Split(StripFuncDeclaration(source), '\n');
    var run := LeadingDocRun(sourceLines);
    DocTextLines(source);
    forall i | 0 <= i < |run|
      ensures DocLineCapture("///" + run[i]) == Some(run[i])
    {
      assert DocLineCapture(sourceLines[i]) == Some(run[i]);
      DocLineOf(run[i]);
    }
    BodyDocRun(doc, run, assertions);
    WrapperDeclaration(paramText, doc, assertions);
  }

  /** The `///` lines at the start of the wrapper's body are the lines of
      the documentation it was given. */
  lemma BodyDocRun(doc: string, run: seq<string>, assertions: seq<string>)
    requires run != [] && Split(doc, '\n') == run
    requires forall i :: 0 <= i < |run| ==> DocLineCapture("///" + run[i]) == Some(run[i])
    requires forall i :: 0 <= i < |assertions| ==> assertions[i] == "" || assertions[i][0] == 'c'
    ensures LeadingDocRun(Split(WrapperBody(doc, assertions), '\n')) == run
  {
    var ys := DocLines(run);
    JoinDocLines(run);
    var tail := WrapperTail(assertions);
    assert WrapperBody(doc, assertions) == Join(ys, "\n") + "\n" + tail;
    forall i | 0 <= i < |ys|
      ensures '\n' !in ys[i]
    {
      assert "///" + run[i] == ys[i];
    }
    SplitJoinThen(ys, '\n', tail);
    var lines := ys + Split(tail, '\n');
    WrapperTailStart(assertions);
    FirstLineNotDoc(tail);
    assert lines[|run|] == Split(tail, '\n')[0];
    assert forall i :: 0 <= i < |run| ==> lines[i] == ys[i];
    LeadingDocRunUnique(lines, run);
  }

  /** The assertion lines of the wrapper, one per parameter, in order. */
  function AssertionLines(params: seq<ParamInfo>): (r: seq<string>)
    ensures |r| == |params|
    ensures forall i :: 0 <= i < |r| ==> r[i] == "" || r[i][0] == 'c'
  {
    seq(|params|, i requires 0 <= i < |params| => AssertionText(params[i]))
  }

  /** One more parameter adds its assertion line at the end. */
  lemma AssertionLinesSnoc(params: seq<ParamInfo>, i: nat)
    requires i < |params|
    ensures AssertionLines(params[..i + 1]) == AssertionLines(params[..i]) + [AssertionText(params[i])]
  {
    var a := AssertionLines(params[..i + 1]);
    var b := AssertionLines(params[..i]) + [AssertionText(params[i])];
    assert |a| == |b|;
    forall k | 0 <= k < |a|
      ensures a[k] == b[k]
    {
      assert params[..i + 1][k] == params[k];
      if k < i {
        assert params[..i][k] == params[k];
      }
    }
  }

  /** The loop of `wrap` collecting one assertion string per parameter. */
  method CollectAssertions(params: seq<ParamInfo>) returns (assertions: seq<string>)
    ensures assertions == AssertionLines(params)
  {
    assertions := [];
    var i := 0;
    var numParams := |params|;
    while i < numParams
      invariant 0 <= i <= numParams
      invariant assertions == AssertionLines(params[..i])
    {
      AssertionLinesSnoc(params, i);
      assertions := assertions + [AssertionText(params[i])];
      i := i + 1;
    }
    assert params[..i] == params;
  }

  // ------------------------------------------------------------------
  // Contracts and the registry

  /** A function object: its source text (`toString()`), its `length`, and
      the `_contract` property a contract sets on it. */
  class FunctionObject {
    const id: nat
    const source: string
    const arity: nat
    var contract: Contract?

    constructor (id: nat, source: string, arity: nat)
      ensures this.id == id && this.source == source && this.arity == arity && contract == null
    {
      this.id := id;
      this.source := source;
      this.arity := arity;
      contract := null;
    }
  }

  /** A contract: the function it was made for and what `cbc.parse.func`
      read from it. */
  class Contract {
    const func: FunctionObject
    const funcInfo: FuncInfo

    constructor (func: FunctionObject, funcInfo: FuncInfo)
      ensures this.func == func && this.funcInfo == funcInfo
    {
      this.func := func;
      this.funcInfo := funcInfo;
    }
  }

  /** What `wrap` returns: the function itself, or the source of the wrapper
      that is evaluated, whose `_func` is the original. */
  datatype Wrapped = Original | Wrapper(source: string, original: FunctionObject)

  /** The module's state: the `contracts` list. */
  class Registry {
    var contracts: seq<Contract>

    constructor ()
      ensures contracts == []
    {
      contracts := [];
    }

    /** `all()`: the contracts, in the order they were created. */
    function All(): seq<Contract>
      reads this
    {
      contracts
    }

    /** `new Contract(func)`: parses the function, appends the contract to
        the registry and attaches it to the function. A parse that throws
        leaves everything as it was. */
    method NewContract(func: FunctionObject, dom: string -> DocTree) returns (r: Outcome<Contract>)
      modifies this, func
      ensures DeclarationOf(func.source).None? ==>
        r == Throws(TypeError) && contracts == old(contracts) && func.contract == old(func.contract)
      ensures DeclarationOf(func.source).Some? ==>
        && r.Ok? && fresh(r.value) && r.value.func == func
        && IsFuncInfoOf(r.value.funcInfo, DeclarationOf(func.source).value,
                        ParsedDocOf(DocText(func.source), dom), func.arity)
        && contracts == old(contracts) + [r.value]
        && func.contract == r.value
    {
      CbcParse.FuncCheck(Function(func.id));
      var info := CbcParse.Func(Function(func.id), func.source, func.arity, dom);
      if info.Throws? {
        return Throws(info.error);
      }
      var c := new Contract(func, info.value);
      contracts := contracts + [c];
      func.contract := c;
      r := Ok(c);
    }

    /** `wrap(func)`: the function itself when it has no documentation;
        otherwise a contract is registered and the wrapper's source built. */
    method Wrap(func: FunctionObject, dom: string -> DocTree) returns (r: Outcome<Wrapped>)
      modifies this, func
      ensures DocText(func.source) == "" ==>
        r == Ok(Original) && contracts == old(contracts) && func.contract == old(func.contract)
      ensures DocText(func.source) != "" && DeclarationOf(func.source).None? ==>
        r == Throws(TypeError) && contracts == old(contracts) && func.contract == old(func.contract)
      ensures DocText(func.source) != "" && DeclarationOf(func.source).Some? ==>
        && |contracts| == |old(contracts)| + 1
        && contracts[..|old(contracts)|] == old(contracts)
        && fresh(contracts[|old(contracts)|])
        && contracts[|old(contracts)|].func == func
        && IsFuncInfoOf(contracts[|old(contracts)|].funcInfo, DeclarationOf(func.source).value,
                        ParsedDocOf(DocText(func.source), dom), func.arity)
        && func.contract == contracts[|old(contracts)|]
        && (ParamListText(func.source).None? ==> r == Throws(TypeError))
        && (ParamListText(func.source).Some? ==>
              r == Ok(Wrapper(WrapperText(ParamListText(func.source).value, DocText(func.source),
                                          AssertionLines(contracts[|old(contracts)|].funcInfo.params)),
                              func)))
    {
      var doc := GetDoc(func.source);
      if doc == "" {
        return Ok(Original);
      }
      var contract := NewContract(func, dom);
      if contract.Throws? {
        return Throws(contract.error);
      }
      assert contracts[|old(contracts)|] == contract.value;
      var assertions := CollectAssertions(contract.value.funcInfo.params);
      var paramText := ParamListText(func.source);
      if paramText.None? {
        return Throws(TypeError);
      }
      r := Ok(Wrapper(WrapperText(paramText.value, doc, assertions), func));
    }
  }

  /** Reading the wrapper `wrap` builds gives back the original's
      documentation and its parameter text. */
  lemma WrapperReadsBack(source: string, paramText: string, params: seq<ParamInfo>)
    requires ParamListText(source) == Some(paramText)
    requires DocText(source) != ""
    ensures DocText(WrapperText(paramText, DocText(source), AssertionLines(params))) == DocText(source)
    ensures DeclarationOf(WrapperText(paramText, DocText(source), AssertionLines(params))) ==
      Some(Declaration("", paramText, 10 + |paramText|))
  {
    WrapperKeepsDoc(source, paramText, AssertionLines(params));
    WrapperDeclaration(paramText, DocText(source), AssertionLines(params));
  }
}
