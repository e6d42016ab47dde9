/** The assertion chains of `cbc.assert`: `cbc.assert.param(name, value).is`
    offers the checks `defined`, `notNull`, `bool`, `func`, `number`,
    `object` and `string`; each check either throws or answers with the
    checks still worth making (`.and`), or with `null` when none is left. */
module CbcAssert {
  import opened Js

  /** The checks, by the names the source gives them. */
  datatype Op = Defined | NotNull | Bool | Func | Number | Object | String | NotEmpty

  function OpName(op: Op): string
  {
    match op
    case Defined => "defined"
    case NotNull => "notNull"
    case Bool => "bool"
    case Func => "func"
    case Number => "number"
    case Object => "object"
    case String => "string"
    case NotEmpty => "notEmpty"
  }

  /** The type checks, in the order `typeAsserts` lists them. */
  const TypeAssertList: seq<Op> := [Bool, Func, Number, Object, String]

  const TypeAsserts: set<Op> := {Bool, Func, Number, Object, String}

  /** The checks offered by a fresh assert's `is`. */
  const InitialIs: set<Op> := {Defined, NotNull, Bool, Func, Number, Object, String}

  /** The `typeof` tag a type check compares against. */
  function TypeTag(op: Op): string
    requires op in TypeAsserts
  {
    match op
    case Bool => "boolean"
    case Func => "function"
    case Number => "number"
    case Object => "object"
    case String => "string"
  }

  function AssertDefined(param: string, value: JsValue): Option<string>
  {
    if TypeOf(value) == "undefined" then Some("Parameter " + param + " must be specified.") else None
  }

  function AssertNotNull(param: string, value: JsValue): Option<string>
  {
    if value == Null then Some("Parameter " + param + " must not be null.") else None
  }

  function AssertValueOfType(param: string, value: JsValue, typeName: string): Option<string>
  {
    var undefinedOrNull := TypeOf(value) == "undefined" || value == Null;
    if !undefinedOrNull && TypeOf(value) != typeName then
      Some("Parameter " + param + " must be of type " + typeName + ".")
    else
      None
  }

  function AssertNotEmptyString(param: string, value: JsValue): Option<string>
  {
    if TypeOf(value) == "string" && |value.s| == 0 then
      Some("Parameter " + param + " must not be empty string.")
    else
      None
  }

  /** What a value must be for a check to let it through, stated on the
      shape of the value rather than on `typeof`. */
  predicate Meets(op: Op, value: JsValue)
  {
    match op
    case Defined => !value.Undefined?
    case NotNull => !value.Null?
    case NotEmpty => value != Str("")
    case _ =>
      || value.Undefined? || value.Null?
      || (op == Bool && value.Boolean?)
      || (op == Func && value.Function?)
      || (op == Number && value.Num?)
      || (op == Object && value.Obj?)
      || (op == String && value.Str?)
  }

  /** The message a failing check throws. */
  function Message(op: Op, param: string): string
  {
    match op
    case Defined => "Parameter " + param + " must be specified."
    case NotNull => "Parameter " + param + " must not be null."
    case NotEmpty => "Parameter " + param + " must not be empty string."
    case _ => "Parameter " + param + " must be of type " + TypeTag(op) + "."
  }

  /** Runs one check: the error message it throws, if it throws. */
  function Check(op: Op, param: string, value: JsValue): (r: Option<string>)
    ensures r.None? <==> Meets(op, value)
    ensures r.Some? ==> r.value == Message(op, param)
  {
    match op
    case Defined => AssertDefined(param, value)
    case NotNull => AssertNotNull(param, value)
    case NotEmpty => AssertNotEmptyString(param, value)
    case _ => AssertValueOfType(param, value, TypeTag(op))
  }

  /** The effect of one entry of the stack on the checks offered. A
      `string` check offers `notEmpty` and then, like every type check,
      withdraws all type checks. */
  function Step(checks: set<Op>, op: Op): set<Op>
  {
    match op
    case Defined => checks - {Defined}
    case NotNull => checks - {NotNull}
    case NotEmpty => checks - {NotEmpty}
    case String => (checks + {NotEmpty}) - TypeAsserts
    case _ => checks - TypeAsserts
  }

  /** The checks offered after the checks `stack` have passed, starting
      from the checks `checks`. */
  function Replay(checks: set<Op>, stack: seq<Op>): set<Op>
  {
    if stack == [] then checks else Step(Replay(checks, stack[..|stack| - 1]), stack[|stack| - 1])
  }

  function Offered(stack: seq<Op>): set<Op>
  {
    Replay(InitialIs, stack)
  }

  predicate NoTypeAssert(s: seq<Op>)
  {
    forall i :: 0 <= i < |s| ==> s[i] !in TypeAsserts
  }

  /** A `string` check has passed and no `notEmpty` check after it. */
  predicate StringPending(s: seq<Op>)
  {
    exists i :: 0 <= i < |s| && s[i] == String && forall j :: i < j < |s| ==> s[j] != NotEmpty
  }

  /** Which checks are offered, told without replaying the stack: `defined`
      and `notNull` until they have passed, a type check until any type
      check has passed, `notEmpty` after `string` until it has passed. */
  lemma {:induction false} OfferedCharacterization(s: seq<Op>)
    ensures Defined in Offered(s) <==> Defined !in s
    ensures NotNull in Offered(s) <==> NotNull !in s
    ensures forall t :: t in TypeAsserts ==> (t in Offered(s) <==> NoTypeAssert(s))
    ensures NotEmpty in Offered(s) <==> StringPending(s)
  {
    if s != [] {
      var p := s[..|s| - 1];
      var op := s[|s| - 1];
      assert s == p + [op];
      OfferedCharacterization(p);
      NoTypeAssertSnoc(p, op);
      StringPendingSnoc(p, op);
    }
  }

  lemma NoTypeAssertSnoc(p: seq<Op>, op: Op)
    ensures NoTypeAssert(p + [op]) <==> NoTypeAssert(p) && op !in TypeAsserts
  {
    var s := p + [op];
    assert forall i :: 0 <= i < |p| ==> s[i] == p[i];
    assert s[|p|] == op;
  }

  /** `notEmpty` is pending after a `string` check, no longer after a
      `notEmpty` check, and otherwise as before. */
  lemma StringPendingSnoc(p: seq<Op>, op: Op)
    ensures StringPending(p + [op]) <==> op == String || (op != NotEmpty && StringPending(p))
  {
    var s := p + [op];
    assert forall k :: 0 <= k < |p| ==> s[k] == p[k];
    assert s[|p|] == op;
    if op == String {
      assert s[|p|] == String;
    } else if op == NotEmpty {
      assert s[|s| - 1] == NotEmpty;
    } else {
      if StringPending(p) {
        var i :| 0 <= i < |p| && p[i] == String && forall j :: i < j < |p| ==> p[j] != NotEmpty;
        assert s[i] == String && forall j :: i < j < |s| ==> s[j] != NotEmpty;
      }
      if StringPending(s) {
        var i :| 0 <= i < |s| && s[i] == String && forall j :: i < j < |s| ==> s[j] != NotEmpty;
        assert i < |p| && p[i] == String && forall j :: i < j < |p| ==> p[j] != NotEmpty;
      }
    }
  }

  /** A chain ends (`newIs` answers `null`) exactly when `defined`,
      `notNull` and a type check have passed and `notEmpty` is not pending. */
  lemma ChainEnds(s: seq<Op>)
    ensures Offered(s) == {} <==>
      Defined in s && NotNull in s && !NoTypeAssert(s) && !StringPending(s)
  {
    OfferedCharacterization(s);
    assert Bool in TypeAsserts;
    if Defined in s && NotNull in s && !NoTypeAssert(s) && !StringPending(s) {
      forall op ensures op !in Offered(s) {
        match op
        case Defined =>
        case NotNull =>
        case NotEmpty =>
        case _ =>
          assert op in TypeAsserts;
      }
    }
  }

  /** The chain that `cbc.assert.param` runs on a name ends with nothing
      left to offer. */
  lemma NameChainEnds()
    ensures Offered([Defined, NotNull, String, NotEmpty]) == {}
  {
    var s := [Defined, NotNull, String, NotEmpty];
    assert s[2] in TypeAsserts;
    assert !StringPending(s) by {
      forall i | 0 <= i < |s| && s[i] == String
        ensures i < 3 && s[3] == NotEmpty
      {
      }
    }
    ChainEnds(s);
  }

  /** `newIs` as the source computes it: copy the checks of `is`, then apply
      every entry of the stack in order. */
  method ComputeNewIs(checks: set<Op>, stack: seq<Op>) returns (newIs: set<Op>)
    ensures newIs == Replay(checks, stack)
  {
    newIs := {};
    var rest := checks;
    while rest != {}
      invariant rest <= checks && newIs == checks - rest
      decreases rest
    {
      var a :| a in rest;
      newIs := newIs + {a};
      rest := rest - {a};
    }
    var i := 0;
    while i < |stack|
      invariant 0 <= i <= |stack|
      invariant newIs == Replay(checks, stack[..i])
      decreases |stack| - i
    {
      assert stack[..i + 1][..i] == stack[..i];
      match stack[i] {
        case Defined =>
          newIs := newIs - {Defined};
        case NotNull =>
          newIs := newIs - {NotNull};
        case NotEmpty =>
          newIs := newIs - {NotEmpty};
        case _ =>
          if stack[i] == String {
            newIs := newIs + {NotEmpty};
          }
          newIs := RemoveTypeAsserts(newIs);
      }
      i := i + 1;
    }
    assert stack[..|stack|] == stack;
  }

  /** The loop over `typeAsserts` deleting each type check. */
  method RemoveTypeAsserts(checks: set<Op>) returns (r: set<Op>)
    ensures r == checks - TypeAsserts
  {
    r := checks;
    var j := 0;
    while j < |TypeAssertList|
      invariant 0 <= j <= |TypeAssertList|
      invariant r == checks - set k | 0 <= k < j :: TypeAssertList[k]
    {
      r := r - {TypeAssertList[j]};
      j := j + 1;
    }
    assert (set k | 0 <= k < 5 :: TypeAssertList[k]) == TypeAsserts by {
      assert TypeAssertList[0] == Bool && TypeAssertList[4] == String;
      assert TypeAssertList[1] == Func && TypeAssertList[2] == Number && TypeAssertList[3] == Object;
    }
  }

  /** Counts the checks in a set of offered checks, one key at a time. */
  method CountKeys(keys: set<Op>) returns (n: nat)
    ensures n == |keys|
  {
    n := 0;
    var rest := keys;
    while rest != {}
      invariant rest <= keys
      invariant n + |rest| == |keys|
      decreases rest
    {
      var key :| key in rest;
      rest := rest - {key};
      n := n + 1;
    }
  }

  /** What a check answers: the error it throws, the checks offered by
      `.and`, or `null` when no check is left. */
  datatype Answer = Threw(message: string) | And(offered: set<Op>) | Done

  function AnswerOf(offered: set<Op>): Answer
  {
    if offered == {} then Done else And(offered)
  }

  /** An assert on one parameter; `stack` lists the checks that have passed. */
  class Assert {
    const param: string
    const value: JsValue
    var stack: seq<Op>

    constructor (param: string, value: JsValue)
      ensures this.param == param && this.value == value && stack == []
    {
      this.param := param;
      this.value := value;
      stack := [];
    }

    /** Records that `op` passed and answers with the checks left. */
    method NewIs(op: Op) returns (r: Answer)
      modifies this
      ensures stack == old(stack) + [op]
      ensures r == AnswerOf(Offered(stack))
    {
      stack := stack + [op];
      var newIs := ComputeNewIs(InitialIs, stack);
      var numAsserts := CountKeys(newIs);
      if numAsserts > 0 {
        r := And(newIs);
      } else {
        r := Done;
      }
    }

    /** Calls the check `op`: it throws and leaves the stack alone, or it
      passes, is pushed, and the checks left are answered. */
    method Apply(op: Op) returns (r: Answer)
      modifies this
      ensures !Meets(op, value) ==> r == Threw(Message(op, param)) && stack == old(stack)
      ensures Meets(op, value) ==> stack == old(stack) + [op] && r == AnswerOf(Offered(stack))
    {
      var failure := Check(op, param, value);
      if failure.Some? {
        return Threw(failure.value);
      }
      r := NewIs(op);
    }
  }

  /** A chain `is.op1().and.op2()...` that calls only checks on offer. */
  predicate LegalPath(ops: seq<Op>)
  {
    forall i :: 0 <= i < |ops| ==> ops[i] in Offered(ops[..i])
  }

  /** What running the chain `is.op1().and.op2()...` on a fresh assert
      throws, if anything: the first failing check's error, or a
      `TypeError` when a link calls a check that `.and` does not offer (or
      `.and` is read from `null`). */
  function RunChain(param: string, value: JsValue, ops: seq<Op>): Option<JsError>
  {
    if ops == [] then None
    else
      var prefix := ops[..|ops| - 1];
      var op := ops[|ops| - 1];
      match RunChain(param, value, prefix)
      case Some(e) => Some(e)
      case None =>
        if op !in Offered(prefix) then Some(TypeError)
        else
          match Check(op, param, value)
          case Some(m) => Some(Error(m))
          case None => None
  }

  /** One more link on a chain, when the chain offers it. */
  lemma RunChainStep(param: string, value: JsValue, prefix: seq<Op>, op: Op)
    requires op in Offered(prefix)
    ensures RunChain(param, value, prefix + [op]) ==
      if RunChain(param, value, prefix).Some? then RunChain(param, value, prefix)
      else if Meets(op, value) then None
      else Some(Error(Message(op, param)))
  {
    assert (prefix + [op])[..|prefix|] == prefix;
  }

  /** In a legal chain no check appears twice, at most one type check
      appears, and `notEmpty` comes after `string`. */
  lemma LegalPathShape(ops: seq<Op>)
    requires LegalPath(ops)
    ensures forall i, j :: 0 <= i < j < |ops| ==> ops[i] != ops[j]
    ensures forall i, j :: 0 <= i < j < |ops| ==> !(ops[i] in TypeAsserts && ops[j] in TypeAsserts)
    ensures forall j :: 0 <= j < |ops| && ops[j] == NotEmpty ==> exists i :: 0 <= i < j && ops[i] == String
  {
    forall i, j | 0 <= i < j < |ops|
      ensures !(ops[i] in TypeAsserts && ops[j] in TypeAsserts)
    {
      OfferedCharacterization(ops[..j]);
      assert ops[..j][i] == ops[i];
    }
    forall j | 0 <= j < |ops| && ops[j] == NotEmpty
      ensures exists i :: 0 <= i < j && ops[i] == String
    {
      OfferedCharacterization(ops[..j]);
      var i :| 0 <= i < j && ops[..j][i] == String && forall k :: i < k < j ==> ops[..j][k] != NotEmpty;
      assert ops[i] == String;
    }
    forall i, j | 0 <= i < j < |ops|
      ensures ops[i] != ops[j]
    {
      OfferedCharacterization(ops[..j]);
      OfferedCharacterization(ops[..i]);
      assert ops[..j][i] == ops[i];
    }
  }

  /** A legal chain throws nothing exactly when the value meets every check
      in it; when it throws, it throws the message of its first failing
      check. */
  lemma {:induction false} ChainPassesIff(param: string, value: JsValue, ops: seq<Op>)
    requires LegalPath(ops)
    ensures RunChain(param, value, ops).None? <==> forall i :: 0 <= i < |ops| ==> Meets(ops[i], value)
    ensures RunChain(param, value, ops).Some? ==>
      exists i :: 0 <= i < |ops| && !Meets(ops[i], value)
        && (forall j :: 0 <= j < i ==> Meets(ops[j], value))
        && RunChain(param, value, ops) == Some(Error(Message(ops[i], param)))
  {
    ChainPassesAll(param, value, ops);
    if RunChain(param, value, ops).Some? {
      var i := ChainFirstFailure(param, value, ops);
    }
  }

  /** A legal chain without its last link is legal, and offers that link. */
  lemma LegalPrefix(ops: seq<Op>)
    requires LegalPath(ops) && ops != []
    ensures LegalPath(ops[..|ops| - 1]) && ops[|ops| - 1] in Offered(ops[..|ops| - 1])
    ensures ops == ops[..|ops| - 1] + [ops[|ops| - 1]]
  {
    var prefix := ops[..|ops| - 1];
    assert forall i :: 0 <= i < |prefix| ==> prefix[..i] == ops[..i] && prefix[i] == ops[i];
  }

  /** The value meets every check of `ops`. */
  predicate MeetsAll(ops: seq<Op>, value: JsValue)
  {
    forall i :: 0 <= i < |ops| ==> Meets(ops[i], value)
  }

  lemma MeetsAllSnoc(prefix: seq<Op>, op: Op, value: JsValue)
    ensures MeetsAll(prefix + [op], value) <==> MeetsAll(prefix, value) && Meets(op, value)
  {
    var ops := prefix + [op];
    assert forall i :: 0 <= i < |prefix| ==> ops[i] == prefix[i];
    assert ops[|prefix|] == op;
  }

  lemma MeetsAllAppend(x: seq<Op>, y: seq<Op>, value: JsValue)
    ensures MeetsAll(x + y, value) <==> MeetsAll(x, value) && MeetsAll(y, value)
  {
    var ops := x + y;
    assert forall i :: 0 <= i < |x| ==> ops[i] == x[i];
    assert forall i :: 0 <= i < |y| ==> ops[|x| + i] == y[i];
  }

  lemma {:induction false} ChainPassesAll(param: string, value: JsValue, ops: seq<Op>)
    requires LegalPath(ops)
    ensures RunChain(param, value, ops).None? <==> MeetsAll(ops, value)
  {
    if ops != [] {
      var prefix, op := ops[..|ops| - 1], ops[|ops| - 1];
      LegalPrefix(ops);
      ChainPassesAll(param, value, prefix);
      RunChainStep(param, value, prefix, op);
      MeetsAllSnoc(prefix, op, value);
    }
  }

  lemma {:induction false} ChainFirstFailure(param: string, value: JsValue, ops: seq<Op>) returns (i: nat)
    requires LegalPath(ops) && RunChain(param, value, ops).Some?
    ensures i < |ops| && !Meets(ops[i], value) && forall j :: 0 <= j < i ==> Meets(ops[j], value)
    ensures RunChain(param, value, ops) == Some(Error(Message(ops[i], param)))
  {
    var prefix, op := ops[..|ops| - 1], ops[|ops| - 1];
    LegalPrefix(ops);
    RunChainStep(param, value, prefix, op);
    assert forall j :: 0 <= j < |prefix| ==> prefix[j] == ops[j];
    if RunChain(param, value, prefix).Some? {
      i := ChainFirstFailure(param, value, prefix);
    } else {
      ChainPassesAll(param, value, prefix);
      i := |ops| - 1;
    }
  }

  /** The checks `cbc.assert.param` makes on the name before anything else. */
  const NameChain: seq<Op> := [Defined, NotNull, String, NotEmpty]

  /** Each check of the name's chain is on offer when the chain reaches it. */
  lemma NameChainOffers()
    ensures Defined in Offered([]) && NotNull in Offered([Defined])
    ensures String in Offered([Defined, NotNull]) && NotEmpty in Offered([Defined, NotNull, String])
  {
    var s1, s2, s3 := [Defined], [Defined, NotNull], [Defined, NotNull, String];
    OfferedCharacterization(s1);
    OfferedCharacterization(s2);
    OfferedCharacterization(s3);
    assert s3[2] == String;
    assert String in TypeAsserts;
    assert Offered([]) == InitialIs;
  }

  /** Whatever the name, its checks throw in the order the chain lists them. */
  lemma NameCheck(name: JsValue)
    ensures RunChain("name", name, NameChain) ==
      if name.Undefined? then Some(Error(Message(Defined, "name")))
      else if name.Null? then Some(Error(Message(NotNull, "name")))
      else if !name.Str? then Some(Error(Message(String, "name")))
      else if name.s == "" then Some(Error(Message(NotEmpty, "name")))
      else None
  {
    var s1, s2, s3 := [Defined], [Defined, NotNull], [Defined, NotNull, String];
    assert s1 == [] + [Defined] && s2 == s1 + [NotNull] && s3 == s2 + [String] && NameChain == s3 + [NotEmpty];
    NameChainOffers();
    RunChainStep("name", name, [], Defined);
    RunChainStep("name", name, s1, NotNull);
    RunChainStep("name", name, s2, String);
    RunChainStep("name", name, s3, NotEmpty);
  }

  /** `cbc.assert.param(name, value)`: checks the name, then hands out a
      fresh assert on `value` named `name`. */
  method Param(name: JsValue, value: JsValue) returns (r: Outcome<Assert>)
    ensures RunChain("name", name, NameChain).Some? ==> r == Throws(RunChain("name", name, NameChain).value)
    ensures RunChain("name", name, NameChain).None? ==>
      r.Ok? && name.Str? && fresh(r.value) && r.value.param == name.s && r.value.value == value && r.value.stack == []
  {
    NameCheck(name);
    var check := new Assert("name", name);
    var answer := check.Apply(Defined);
    if answer.Threw? {
      return Throws(Error(answer.message));
    }
    answer := check.Apply(NotNull);
    if answer.Threw? {
      return Throws(Error(answer.message));
    }
    answer := check.Apply(String);
    if answer.Threw? {
      return Throws(Error(answer.message));
    }
    answer := check.Apply(NotEmpty);
    if answer.Threw? {
      return Throws(Error(answer.message));
    }
    var a := new Assert(name.s, value);
    r := Ok(a);
  }
}
