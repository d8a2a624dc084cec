/**
 * The meaning of `Interpreter::run` (src/interpreter.rs) as functions over an explicit
 * token cursor. Each statement is a function from the words, the cursor just after
 * its keyword and the tables to an `Exit`: the new tables, the new cursor and whether
 * the statement finished or failed. Every `unwrap`, `panic!` and failing index of the
 * source is a `Fail`; the tables at a failure are those the source leaves behind, so
 * the effects of earlier statements, printed lines included, are kept.
 *
 * The scanners are tail-recursive in the cursor, so that each is the specification of
 * one `while let Some(word) = source.next()` loop of the source.
 */
module Semantics {
  import opened Options
  import opened Int32
  import opened Lexemes
  import opened Lexer

  /** `struct Function`: what a declaration records. */
  datatype FunctionDef = FunctionDef(parameters: seq<string>, code: seq<string>)

  /** The tables of an interpreter and the lines written to its output stream. */
  datatype Env = Env(
    variables: map<string, int>,
    arrays: map<string, seq<int>>,
    strings: map<string, string>,
    structs: map<string, map<string, int>>,
    functions: map<string, FunctionDef>,
    output: seq<string>)

  const EMPTY: Env := Env(map[], map[], map[], map[], map[], [])

  datatype Error =
    | MissingOperand              // `source.next().unwrap()` on an exhausted cursor
    | ParseLiteral(token: string)  // `parse().unwrap()` on a malformed number
    | UndefinedName(name: string)  // indexing a table with an absent key
    | UnknownCommand(token: string)
    | InvalidComparison(token: string)
    | Overflow                    // i32 arithmetic outside the range (debug build)
    | DivisionByZero
    | Unmodelled(token: string)    // floating-point statements, not part of this model
    | OutOfFuel                   // the loop passes allowed to this run are used up

  datatype Outcome = Done | Fail(error: Error)

  datatype Result<T> = Success(value: T) | Failure(error: Error)

  /** The state after a statement or a scan: tables, cursor and outcome. */
  datatype Exit = Exit(env: Env, pos: nat, outcome: Outcome)

  /** The same, with the loop passes still allowed. */
  datatype Progress = Progress(env: Env, pos: nat, fuel: nat, outcome: Outcome)

  function Lift(x: Exit, fuel: nat): Progress {
    Progress(x.env, x.pos, fuel, x.outcome)
  }

  /** `after` differs from `before` at most in the integer table and the output. */
  predicate OnlyIntegers(before: Env, after: Env) {
    after.(variables := before.variables, output := before.output) == before
  }

  /** Every integer the tables hold is an `i32`, as the types of the source's tables guarantee. */
  predicate Typed(env: Env) {
    && (forall k :: k in env.variables ==> InRange(env.variables[k]))
    && (forall k, i :: k in env.arrays && 0 <= i < |env.arrays[k]| ==> InRange(env.arrays[k][i]))
    && (forall k, f :: k in env.structs && f in env.structs[k] ==> InRange(env.structs[k][f]))
  }

  /** `after` is `before` with the entry `name` written and every other entry kept. */
  predicate Overwrites<V(==)>(before: map<string, V>, after: map<string, V>, name: string) {
    name in after && after - {name} == before - {name}
  }

  lemma OverwritesUpdate<V>(m: map<string, V>, name: string, v: V)
    ensures Overwrites(m, m[name := v], name) && m[name := v][name] == v
  {
    assert m[name := v] - {name} == m - {name};
  }

  /** A scan that started at `pos` stays within the words and never retracts output. */
  predicate Advances(t: seq<string>, pos: nat, env: Env, x: Exit) {
    pos <= x.pos <= |t| && env.output <= x.env.output
  }

  // ---------------------------------------------------------------------------
  // Iteration order of a struct's fields

  /** `keys` lists every key of `domain` exactly once. */
  ghost predicate Enumerates(keys: seq<string>, domain: set<string>) {
    && (forall i, j :: 0 <= i < j < |keys| ==> keys[i] != keys[j])
    && (forall k :: k in keys <==> k in domain)
  }

  ghost function EnumerationOf(domain: set<string>): (keys: seq<string>)
    ensures Enumerates(keys, domain)
    decreases domain
  {
    if domain == {} then []
    else
      var k :| k in domain;
      var rest := EnumerationOf(domain - {k});
      assert forall j :: 0 <= j < |rest| ==> rest[j] != k;
      [k] + rest
  }

  /**
   * The order in which `HashMap::iter` visits a struct's fields. It is fixed by the
   * hasher, which is outside the program, so the interpreter is given one; all that is
   * known is that it visits every field once.
   */
  type KeyOrder = order: map<string, int> -> seq<string> | forall m :: Enumerates(order(m), m.Keys)
    ghost witness (m: map<string, int>) => EnumerationOf(m.Keys)

  // ---------------------------------------------------------------------------
  // Integer operations

  datatype ArithOp = Plus | Minus | Times | Quotient

  function Exact(op: ArithOp, a: int, b: int): int
    requires op == Quotient ==> b != 0
  {
    match op
    case Plus => a + b
    case Minus => a - b
    case Times => a * b
    case Quotient => Quot(a, b)
  }

  /** `a op b` on `i32` in a debug build: a zero divisor and overflow both panic. */
  function Arith(op: ArithOp, a: int, b: int): (r: Result<int>)
    ensures r.Success? ==> InRange(r.value)
  {
    if op == Quotient && b == 0 then Failure(DivisionByZero)
    else if InRange(Exact(op, a, b)) then Success(Exact(op, a, b))
    else Failure(Overflow)
  }

  /**
   * `vars[n1] := vars[n1] op vars[n2]`. The top-level statements read `vars[n1]` first;
   * the block bodies write `*get_mut(n1).unwrap() op= vars[n2]`, a compound assignment
   * on primitives, which evaluates `vars[n2]` first. The order only decides which
   * undefined name is reported.
   */
  function Update(vars: map<string, int>, n1: string, n2: string, op: ArithOp, compound: bool)
    : Result<map<string, int>>
  {
    if !compound && n1 !in vars then Failure(UndefinedName(n1))
    else if n2 !in vars then Failure(UndefinedName(n2))
    else if n1 !in vars then Failure(UndefinedName(n1))
    else match Arith(op, vars[n1], vars[n2])
      case Failure(e) => Failure(e)
      case Success(v) => Success(vars[n1 := v])
  }

  /** The meaning of the six comparison operators. */
  function Holds(c: Comparison, x: int, y: int): bool {
    match c
    case Equal => x == y
    case NotEqual => x != y
    case LessThan => x < y
    case LessThanOrEqual => x <= y
    case GreaterThan => x > y
    case GreaterThanOrEqual => x >= y
  }

  // ---------------------------------------------------------------------------
  // Statements on integers; `pos` is just after the keyword

  /** `var NAME LITERAL` (interpreter.rs:80-84 and the bodies of blocks). */
  function VarStmt(t: seq<string>, pos: nat, env: Env): (x: Exit)
    requires pos <= |t|
    ensures Advances(t, pos, env, x)
    ensures OnlyIntegers(env, x.env)
    ensures Typed(env) ==> Typed(x.env)
  {
    if pos + 2 > |t| then Exit(env, pos, Fail(MissingOperand))
    else match ParseI32(t[pos + 1])
      case None => Exit(env, pos, Fail(ParseLiteral(t[pos + 1])))
      case Some(v) => Exit(env.(variables := env.variables[t[pos] := v]), pos + 2, Done)
  }

  /** `print NAME` inside a block body: only the integer table is consulted. */
  function PrintInt(t: seq<string>, pos: nat, env: Env): (x: Exit)
    requires pos <= |t|
    ensures Advances(t, pos, env, x)
    ensures x.env == env.(output := x.env.output)
    ensures Typed(env) ==> Typed(x.env)
  {
    if pos + 1 > |t| then Exit(env, pos, Fail(MissingOperand))
    else if t[pos] !in env.variables then Exit(env, pos, Fail(UndefinedName(t[pos])))
    else Exit(env.(output := env.output + [IntToString(env.variables[t[pos]])]), pos + 1, Done)
  }

  /** `add`/`sub`/`mul`/`div NAME1 NAME2`, reading both names at `pos`. */
  function UpdateStmt(t: seq<string>, pos: nat, env: Env, op: ArithOp, compound: bool): (x: Exit)
    requires pos <= |t|
    ensures Advances(t, pos, env, x)
    ensures OnlyIntegers(env, x.env)
    ensures Typed(env) ==> Typed(x.env)
  {
    if pos + 2 > |t| then Exit(env, pos, Fail(MissingOperand))
    else match Update(env.variables, t[pos], t[pos + 1], op, compound)
      case Failure(e) => Exit(env, pos, Fail(e))
      case Success(vars) => Exit(env.(variables := vars), pos + 2, Done)
  }

  /** `abs NAME` (interpreter.rs:464-468); `i32::MIN.abs()` overflows. */
  function AbsStmt(t: seq<string>, pos: nat, env: Env): (x: Exit)
    requires pos <= |t|
    ensures Advances(t, pos, env, x)
    ensures OnlyIntegers(env, x.env)
    ensures Typed(env) ==> Typed(x.env)
  {
    if pos + 1 > |t| then Exit(env, pos, Fail(MissingOperand))
    else if t[pos] !in env.variables then Exit(env, pos, Fail(UndefinedName(t[pos])))
    else
      var a := env.variables[t[pos]];
      if !InRange(Int32.Abs(a)) then Exit(env, pos, Fail(Overflow))
      else Exit(env.(variables := env.variables[t[pos] := Int32.Abs(a)]), pos + 1, Done)
  }

  /** `pow NAME1 NAME2` (interpreter.rs:469-474): the exponent is `NAME2 as u32`. */
  function PowStmt(t: seq<string>, pos: nat, env: Env): (x: Exit)
    requires pos <= |t|
    ensures Advances(t, pos, env, x)
    ensures OnlyIntegers(env, x.env)
    ensures Typed(env) ==> Typed(x.env)
  {
    if pos + 2 > |t| then Exit(env, pos, Fail(MissingOperand))
    else if t[pos] !in env.variables then Exit(env, pos, Fail(UndefinedName(t[pos])))
    else if t[pos + 1] !in env.variables then Exit(env, pos, Fail(UndefinedName(t[pos + 1])))
    else
      var r := Power(env.variables[t[pos]], AsU32(env.variables[t[pos + 1]]));
      if !InRange(r) then Exit(env, pos, Fail(Overflow))
      else Exit(env.(variables := env.variables[t[pos] := r]), pos + 2, Done)
  }

  // ---------------------------------------------------------------------------
  // Declarations

  /** Reads `n` integer literals from `pos` on, appending them to `acc`. */
  function ReadInts(t: seq<string>, pos: nat, n: nat, acc: seq<int>): (r: Result<seq<int>>)
    requires pos <= |t|
    ensures r.Success? ==> pos + n <= |t|
    decreases n
  {
    if n == 0 then Success(acc)
    else if pos == |t| then Failure(MissingOperand)
    else match ParseI32(t[pos])
      case None => Failure(ParseLiteral(t[pos]))
      case Some(v) => ReadInts(t, pos + 1, n - 1, acc + [v])
  }

  /** Reading succeeds exactly when the `n` words from `pos` exist and are all i32 literals. */
  lemma {:induction false} ReadIntsSucceeds(t: seq<string>, pos: nat, n: nat, acc: seq<int>)
    requires pos <= |t|
    ensures ReadInts(t, pos, n, acc).Success? <==>
      pos + n <= |t| && forall i :: pos <= i < pos + n ==> ParseI32(t[i]).Some?
    decreases n
  {
    if n > 0 && pos < |t| {
      if ParseI32(t[pos]).None? {
        assert !ParseI32(t[pos]).Some?;
      } else {
        ReadIntsSucceeds(t, pos + 1, n - 1, acc + [ParseI32(t[pos]).value]);
      }
    }
  }

  /** The values read are the `n` words from `pos` parsed, in order, after `acc`. */
  lemma {:induction false} ReadIntsValues(t: seq<string>, pos: nat, n: nat, acc: seq<int>)
    requires pos <= |t|
    ensures var r := ReadInts(t, pos, n, acc);
      r.Success? ==>
        && |r.value| == |acc| + n && r.value[..|acc|] == acc
        && forall i :: pos <= i < pos + n ==> ParseI32(t[i]) == Some(r.value[|acc| + i - pos])
    decreases n
  {
    if n > 0 && pos < |t| && ParseI32(t[pos]).Some? {
      var v := ParseI32(t[pos]).value;
      var more := acc + [v];
      ReadIntsValues(t, pos + 1, n - 1, more);
      var r := ReadInts(t, pos, n, acc);
      assert r == ReadInts(t, pos + 1, n - 1, more);
      if r.Success? {
        assert r.value[..|more|] == more;
        assert r.value[..|acc|] == more[..|acc|];
        assert r.value[|acc|] == more[|acc|] == v;
      }
    }
  }

  /** What an array declaration reads: the `n` words from `pos`, parsed, in order. */
  lemma ReadIntsParsed(t: seq<string>, pos: nat, n: nat)
    requires pos <= |t|
    ensures var r := ReadInts(t, pos, n, []);
      r.Success? ==> |r.value| == n && forall i :: pos <= i < pos + n ==> ParseI32(t[i]) == Some(r.value[i - pos])
  {
    ReadIntsValues(t, pos, n, []);
  }

  /** Every value an array declaration reads is an i32. */
  lemma ReadIntsInRange(t: seq<string>, pos: nat, n: nat)
    requires pos <= |t|
    ensures var r := ReadInts(t, pos, n, []);
      r.Success? ==> forall i :: 0 <= i < |r.value| ==> InRange(r.value[i])
  {
    ReadIntsParsed(t, pos, n);
    var r := ReadInts(t, pos, n, []);
    if r.Success? {
      forall i | 0 <= i < |r.value| ensures InRange(r.value[i]) {
        var j := pos + i;
        assert ParseI32(t[j]) == Some(r.value[j - pos]);
      }
    }
  }

  /** `array NAME SIZE v1 .. vSIZE` (interpreter.rs:85-94). */
  function ArrayStmt(t: seq<string>, pos: nat, env: Env): (x: Exit)
    requires pos <= |t|
    ensures Advances(t, pos, env, x)
    ensures Typed(env) ==> Typed(x.env)
  {
    if pos + 2 > |t| then Exit(env, pos, Fail(MissingOperand))
    else match ParseUsize(t[pos + 1])
      case None => Exit(env, pos, Fail(ParseLiteral(t[pos + 1])))
      case Some(n) =>
        match ReadInts(t, pos + 2, n, [])
        case Failure(e) => Exit(env, pos, Fail(e))
        case Success(values) =>
          ReadIntsInRange(t, pos + 2, n);
          Exit(env.(arrays := env.arrays[t[pos] := values]), pos + 2 + n, Done)
  }

  datatype Words = Words(words: seq<string>, pos: nat)

  /** The words of a string literal, up to `endstring` (consumed) or the end of the input. */
  function StringWords(t: seq<string>, pos: nat, acc: seq<string>): (r: Words)
    requires pos <= |t|
    ensures pos <= r.pos <= |t| && |acc| <= |r.words| <= |acc| + |t| - pos
    decreases |t| - pos
  {
    if pos == |t| then Words(acc, pos)
    else if t[pos] == "endstring" then Words(acc, pos + 1)
    else StringWords(t, pos + 1, acc + [t[pos]])
  }

  /**
   * The words collected are exactly the words from `pos` up to the first `endstring`, which
   * is consumed, or up to the end of the input.
   */
  lemma {:induction false} StringWordsSpan(t: seq<string>, pos: nat, acc: seq<string>)
    requires pos <= |t|
    ensures var r := StringWords(t, pos, acc);
      && r.words == acc + t[pos..pos + |r.words| - |acc|]
      && (forall i :: |acc| <= i < |r.words| ==> r.words[i] != "endstring")
      && ((r.pos == pos + |r.words| - |acc| + 1 && t[r.pos - 1] == "endstring")
          || r.pos == |t| == pos + |r.words| - |acc|)
    decreases |t| - pos
  {
    if pos < |t| && t[pos] != "endstring" {
      StringWordsSpan(t, pos + 1, acc + [t[pos]]);
      var r := StringWords(t, pos, acc);
      var k := |r.words| - |acc|;
      assert t[pos..pos + k] == [t[pos]] + t[pos + 1..pos + k];
    }
  }

  /** `string NAME w1 .. wk endstring` (interpreter.rs:95-107). */
  function StringStmt(t: seq<string>, pos: nat, env: Env): (x: Exit)
    requires pos <= |t|
    ensures Advances(t, pos, env, x)
    ensures Typed(env) ==> Typed(x.env)
  {
    if pos + 1 > |t| then Exit(env, pos, Fail(MissingOperand))
    else
      var w := StringWords(t, pos + 1, []);
      Exit(env.(strings := env.strings[t[pos] := Join(w.words)]), w.pos, Done)
  }

  datatype Fields = Fields(fields: map<string, int>, pos: nat)

  /** The `FIELD VALUE` pairs of a struct, up to `endstruct` (consumed) or the end of the input. */
  function StructFields(t: seq<string>, pos: nat, fields: map<string, int>): (r: Result<Fields>)
    requires pos <= |t|
    ensures r.Success? ==> pos <= r.value.pos <= |t| && fields.Keys <= r.value.fields.Keys
    decreases |t| - pos
    ensures r.Success? && (forall k :: k in fields ==> InRange(fields[k])) ==>
      forall k :: k in r.value.fields ==> InRange(r.value.fields[k])
  {
    if pos == |t| then Success(Fields(fields, pos))
    else if t[pos] == "endstruct" then Success(Fields(fields, pos + 1))
    else if pos + 2 > |t| then Failure(MissingOperand)
    else match ParseI32(t[pos + 1])
      case None => Failure(ParseLiteral(t[pos + 1]))
      case Some(v) => StructFields(t, pos + 2, fields[t[pos] := v])
  }

  /** `struct NAME f1 v1 .. endstruct` (interpreter.rs:158-169). */
  function StructStmt(t: seq<string>, pos: nat, env: Env): (x: Exit)
    requires pos <= |t|
    ensures Advances(t, pos, env, x)
    ensures Typed(env) ==> Typed(x.env)
  {
    if pos + 1 > |t| then Exit(env, pos, Fail(MissingOperand))
    else match StructFields(t, pos + 1, map[])
      case Failure(e) => Exit(env, pos, Fail(e))
      case Success(f) => Exit(env.(structs := env.structs[t[pos] := f.fields]), f.pos, Done)
  }

  // ---------------------------------------------------------------------------
  // Block bodies

  /**
   * One statement of a block body, with `pos` at its first word. Bodies understand
   * `var`, `print` and `add`, and, when `full`, `sub`, `mul` and `div`; every other word
   * is skipped on its own.
   */
  function BodyStmt(t: seq<string>, pos: nat, env: Env, full: bool): (x: Exit)
    requires pos < |t|
    ensures Advances(t, pos, env, x)
    ensures x.outcome.Done? ==> pos < x.pos
    ensures OnlyIntegers(env, x.env)
    ensures Typed(env) ==> Typed(x.env)
  {
    match LexemeOf(t[pos])
    case Some(Var) => VarStmt(t, pos + 1, env)
    case Some(Print) => PrintInt(t, pos + 1, env)
    case Some(Add) => UpdateStmt(t, pos + 1, env, Plus, true)
    case Some(Sub) => if full then UpdateStmt(t, pos + 1, env, Minus, true) else Exit(env, pos + 1, Done)
    case Some(Mul) => if full then UpdateStmt(t, pos + 1, env, Times, true) else Exit(env, pos + 1, Done)
    case Some(Div) => if full then UpdateStmt(t, pos + 1, env, Quotient, true) else Exit(env, pos + 1, Done)
    case _ => Exit(env, pos + 1, Done)
  }

  /**
   * A branch of `if`: statements up to the first `end`, or also `else` when `stopAtElse`
   * (the true branch, interpreter.rs:253-296; the else branch, 304-347).
   */
  function Branch(t: seq<string>, pos: nat, env: Env, stopAtElse: bool): (x: Exit)
    requires pos <= |t|
    ensures Advances(t, pos, env, x)
    ensures x.outcome.Done? && x.pos < |t| ==>
      pos < x.pos && (t[x.pos - 1] == "end" || (stopAtElse && t[x.pos - 1] == "else"))
    decreases |t| - pos
    ensures OnlyIntegers(env, x.env)
    ensures Typed(env) ==> Typed(x.env)
  {
    if pos == |t| then Exit(env, pos, Done)
    else if t[pos] == "end" || (stopAtElse && t[pos] == "else") then Exit(env, pos + 1, Done)
    else
      var x := BodyStmt(t, pos, env, true);
      if x.outcome.Fail? then x else Branch(t, x.pos, x.env, stopAtElse)
  }

  /**
   * A false condition: skip words up to `end`, or, at the first `else`, run the else
   * branch (interpreter.rs:298-352).
   */
  function SkipToElse(t: seq<string>, pos: nat, env: Env): (x: Exit)
    requires pos <= |t|
    ensures Advances(t, pos, env, x)
    decreases |t| - pos
    ensures OnlyIntegers(env, x.env)
    ensures Typed(env) ==> Typed(x.env)
  {
    if pos == |t| then Exit(env, pos, Done)
    else if t[pos] == "end" then Exit(env, pos + 1, Done)
    else if t[pos] == "else" then Branch(t, pos + 1, env, false)
    else SkipToElse(t, pos + 1, env)
  }

  datatype Condition = Condition(name: string, cmp: Comparison, bound: int)

  /** `NAME CMP LITERAL` after `if` and `loop`, read one word at a time. */
  function ReadCondition(t: seq<string>, pos: nat): (r: Result<Condition>)
    requires pos <= |t|
    ensures r.Success? ==> pos + 3 <= |t| && r.value.name == t[pos]
  {
    if pos + 2 > |t| then Failure(MissingOperand)
    else match ComparisonOf(t[pos + 1])
      case None => Failure(InvalidComparison(t[pos + 1]))
      case Some(cmp) =>
        if pos + 3 > |t| then Failure(MissingOperand)
        else match ParseI32(t[pos + 2])
          case None => Failure(ParseLiteral(t[pos + 2]))
          case Some(v) => Success(Condition(t[pos], cmp, v))
  }

  /** `if NAME CMP LITERAL then-body [else else-body] end` (interpreter.rs:239-354). */
  function IfStmt(t: seq<string>, pos: nat, env: Env): (x: Exit)
    requires pos <= |t|
    ensures Advances(t, pos, env, x)
    ensures OnlyIntegers(env, x.env)
    ensures Typed(env) ==> Typed(x.env)
  {
    match ReadCondition(t, pos)
    case Failure(e) => Exit(env, pos, Fail(e))
    case Success(c) =>
      if c.name !in env.variables then Exit(env, pos, Fail(UndefinedName(c.name)))
      else if Holds(c.cmp, env.variables[c.name], c.bound) then Branch(t, pos + 3, env, true)
      else SkipToElse(t, pos + 3, env)
  }

  /** The loop-body statements that take their operands from the loop's own cursor. */
  function StolenOp(word: string): (op: Option<ArithOp>)
    ensures op.Some? <==> word in {"sub", "mul", "div"}
  {
    match LexemeOf(word)
    case Some(Sub) => Some(Minus)
    case Some(Mul) => Some(Times)
    case Some(Div) => Some(Quotient)
    case _ => None
  }

  /**
   * One pass of a loop body: a clone `inner` of the cursor walks the body up to `end`.
   * `var`, `print` and `add` read their operands through the clone, but `sub`, `mul` and
   * `div` read theirs through the loop's own cursor `main` (interpreter.rs:388-405),
   * which is the cursor returned in `pos`.
   */
  function LoopPass(t: seq<string>, main: nat, inner: nat, env: Env): (x: Exit)
    requires main <= |t| && inner <= |t|
    ensures Advances(t, main, env, x)
    decreases |t| - inner
    ensures OnlyIntegers(env, x.env)
    ensures Typed(env) ==> Typed(x.env)
  {
    if inner == |t| || t[inner] == "end" then Exit(env, main, Done)
    else
      var op := StolenOp(t[inner]);
      if op.Some? then
        var x := UpdateStmt(t, main, env, op.value, true);
        if x.outcome.Fail? then x else LoopPass(t, x.pos, inner + 1, x.env)
      else
        var x := BodyStmt(t, inner, env, false);
        if x.outcome.Fail? then Exit(x.env, main, x.outcome) else LoopPass(t, main, x.pos, x.env)
  }

  /** The passes of a loop: the condition is evaluated afresh before each (interpreter.rs:359-409). */
  function LoopRun(t: seq<string>, main: nat, env: Env, fuel: nat, c: Condition): (p: Progress)
    requires main <= |t|
    ensures main <= p.pos <= |t| && p.fuel <= fuel && env.output <= p.env.output
    ensures p.outcome.Done? ==> c.name in p.env.variables && !Holds(c.cmp, p.env.variables[c.name], c.bound)
    decreases fuel
    ensures OnlyIntegers(env, p.env)
    ensures Typed(env) ==> Typed(p.env)
  {
    if c.name !in env.variables then Progress(env, main, fuel, Fail(UndefinedName(c.name)))
    else if !Holds(c.cmp, env.variables[c.name], c.bound) then Progress(env, main, fuel, Done)
    else if fuel == 0 then Progress(env, main, fuel, Fail(OutOfFuel))
    else
      var x := LoopPass(t, main, main, env);
      if x.outcome.Fail? then Progress(x.env, x.pos, fuel - 1, x.outcome)
      else LoopRun(t, x.pos, x.env, fuel - 1, c)
  }

  /** One pass of a loop whose condition holds, seen from its result `x`. */
  lemma LoopRunPass(t: seq<string>, main: nat, env: Env, fuel: nat, c: Condition, x: Exit)
    requires main <= |t| && c.name in env.variables && Holds(c.cmp, env.variables[c.name], c.bound) && fuel > 0
    requires LoopPass(t, main, main, env) == x
    ensures x.outcome.Fail? ==> LoopRun(t, main, env, fuel, c) == Progress(x.env, x.pos, fuel - 1, x.outcome)
    ensures !x.outcome.Fail? ==> LoopRun(t, main, env, fuel, c) == LoopRun(t, x.pos, x.env, fuel - 1, c)
  {
  }

  /**
   * `loop NAME CMP LITERAL body end` (interpreter.rs:355-410). The loop's cursor is left at
   * the start of the body, so the body is walked once more by the top level.
   */
  function LoopStmt(t: seq<string>, pos: nat, env: Env, fuel: nat): (p: Progress)
    requires pos <= |t|
    ensures pos <= p.pos <= |t| && p.fuel <= fuel && env.output <= p.env.output
    ensures OnlyIntegers(env, p.env)
    ensures Typed(env) ==> Typed(p.env)
  {
    match ReadCondition(t, pos)
    case Failure(e) => Progress(env, pos, fuel, Fail(e))
    case Success(c) => LoopRun(t, pos + 3, env, fuel, c)
  }

  // ---------------------------------------------------------------------------
  // Functions

  function Register(env: Env, name: string, f: FunctionDef): Env {
    env.(functions := env.functions[name := f])
  }

  datatype Declared = Declared(env: Env, pos: nat, parameters: seq<string>, outcome: Outcome)

  /**
   * The words after `with`, up to `end`: each is executed at once as a body statement
   * (`var`, `print`, `add`), and each word so dispatched is recorded as a parameter
   * (interpreter.rs:121-146).
   */
  function WithBody(t: seq<string>, pos: nat, env: Env, parameters: seq<string>): (d: Declared)
    requires pos <= |t|
    ensures pos <= d.pos <= |t| && env.output <= d.env.output && parameters <= d.parameters
    decreases |t| - pos
    ensures OnlyIntegers(env, d.env)
    ensures Typed(env) ==> Typed(d.env)
  {
    if pos == |t| then Declared(env, pos, parameters, Done)
    else if t[pos] == "end" then Declared(env, pos + 1, parameters, Done)
    else
      var x := BodyStmt(t, pos, env, false);
      if x.outcome.Fail? then Declared(x.env, x.pos, parameters, x.outcome)
      else WithBody(t, x.pos, x.env, parameters + [t[pos]])
  }

  /** The words before `with` are the function's code (interpreter.rs:117-156). */
  function CollectCode(t: seq<string>, pos: nat, env: Env, name: string, code: seq<string>): (x: Exit)
    requires pos <= |t|
    ensures Advances(t, pos, env, x)
    ensures x.env.(variables := env.variables, output := env.output, functions := env.functions) == env
    ensures x.outcome.Fail? ==> x.env.functions == env.functions
    ensures x.outcome.Done? ==> Overwrites(env.functions, x.env.functions, name)
    decreases |t| - pos
    ensures Typed(env) ==> Typed(x.env)
  {
    if pos == |t| then Exit(Register(env, name, FunctionDef([], code)), pos, Done)
    else if t[pos] == "end" then Exit(Register(env, name, FunctionDef([], code)), pos + 1, Done)
    else if t[pos] == "with" then
      var d := WithBody(t, pos + 1, env, []);
      if d.outcome.Fail? then Exit(d.env, d.pos, d.outcome)
      else Exit(Register(d.env, name, FunctionDef(d.parameters, code)), d.pos, Done)
    else CollectCode(t, pos + 1, env, name, code + [t[pos]])
  }

  /** `function NAME code.. with body.. end` (interpreter.rs:113-157). */
  function FunctionStmt(t: seq<string>, pos: nat, env: Env): (x: Exit)
    requires pos <= |t|
    ensures Advances(t, pos, env, x)
    ensures Typed(env) ==> Typed(x.env)
  {
    if pos + 1 > |t| then Exit(env, pos, Fail(MissingOperand))
    else CollectCode(t, pos + 1, env, t[pos], [])
  }

  /** Pairs parameters with argument words, as `zip` does, parsing each argument. */
  function BindArguments(parameters: seq<string>, args: seq<string>, locals: map<string, int>)
    : (r: Result<map<string, int>>)
    requires |args| <= |parameters|
    ensures r.Success? ==> r.value.Keys == locals.Keys + set i | 0 <= i < |args| :: parameters[i]
    decreases |args|
  {
    if args == [] then Success(locals)
    else match ParseI32(args[0])
      case None => Failure(ParseLiteral(args[0]))
      case Some(v) => BindArguments(parameters[1..], args[1..], locals[parameters[0] := v])
  }

  datatype Frame = Frame(env: Env, locals: map<string, int>, outcome: Outcome)

  /**
   * A function's code run by `call` (interpreter.rs:218-237): `var` writes the local
   * table, while `print` and `add` use the interpreter's own integer table.
   */
  function CallBody(code: seq<string>, i: nat, env: Env, locals: map<string, int>): (f: Frame)
    requires i <= |code|
    ensures env.output <= f.env.output
    decreases |code| - i
    ensures OnlyIntegers(env, f.env)
    ensures Typed(env) ==> Typed(f.env)
  {
    if i == |code| then Frame(env, locals, Done)
    else if LexemeOf(code[i]) == Some(Var) then
      if i + 3 > |code| then Frame(env, locals, Fail(MissingOperand))
      else match ParseI32(code[i + 2])
        case None => Frame(env, locals, Fail(ParseLiteral(code[i + 2])))
        case Some(v) => CallBody(code, i + 3, env, locals[code[i + 1] := v])
    else if LexemeOf(code[i]) == Some(Print) || LexemeOf(code[i]) == Some(Add) then
      var x := BodyStmt(code, i, env, false);
      if x.outcome.Fail? then Frame(x.env, locals, x.outcome) else CallBody(code, x.pos, x.env, locals)
    else CallBody(code, i + 1, env, locals)
  }

  /** `call NAME args..` (interpreter.rs:207-237): takes as many words as there are parameters. */
  function CallStmt(t: seq<string>, pos: nat, env: Env): (x: Exit)
    requires pos <= |t|
    ensures Advances(t, pos, env, x)
    ensures OnlyIntegers(env, x.env)
    ensures Typed(env) ==> Typed(x.env)
  {
    if pos + 1 > |t| then Exit(env, pos, Fail(MissingOperand))
    else if t[pos] !in env.functions then Exit(env, pos, Fail(UndefinedName(t[pos])))
    else
      var f := env.functions[t[pos]];
      var k := if |f.parameters| <= |t| - (pos + 1) then |f.parameters| else |t| - (pos + 1);
      match BindArguments(f.parameters, t[pos + 1..pos + 1 + k], map[])
      case Failure(e) => Exit(env, pos, Fail(e))
      case Success(locals) =>
        var c := CallBody(f.code, 0, env, locals);
        Exit(c.env, if c.outcome.Done? then pos + 1 + k else pos, c.outcome)
  }

  // ---------------------------------------------------------------------------
  // Printing

  function ArrayLine(name: string, i: nat, v: int): string {
    name + "[" + NatToString(i) + "] = " + IntToString(v)
  }

  function FieldLine(name: string, field: string, v: int): string {
    name + "." + field + " = " + IntToString(v)
  }

  /** One line per element, in index order. */
  function ArrayLines(name: string, a: seq<int>): (lines: seq<string>)
  {
    seq(|a|, i requires 0 <= i < |a| => ArrayLine(name, i, a[i]))
  }

  /** One line per listed field, in the listed order. */
  function FieldLines(name: string, fields: map<string, int>, keys: seq<string>): (lines: seq<string>)
    requires forall i :: 0 <= i < |keys| ==> keys[i] in fields
  {
    seq(|keys|, i requires 0 <= i < |keys| => FieldLine(name, keys[i], fields[keys[i]]))
  }

  /**
   * What `print NAME` writes: the tables are probed integer, array, struct, string; the
   * float table, between array and struct in the source, is always empty here.
   */
  function PrintLines(env: Env, name: string, order: KeyOrder): Result<seq<string>> {
    if name in env.variables then Success([IntToString(env.variables[name])])
    else if name in env.arrays then Success(ArrayLines(name, env.arrays[name]))
    else if name in env.structs then
      var fields := env.structs[name];
      Success(FieldLines(name, fields, order(fields)))
    else if name in env.strings then Success([env.strings[name]])
    else Failure(UndefinedName(name))
  }

  /** `print NAME` at the top level (interpreter.rs:170-193). */
  function PrintStmt(t: seq<string>, pos: nat, env: Env, order: KeyOrder): (x: Exit)
    requires pos <= |t|
    ensures Advances(t, pos, env, x)
    ensures x.env == env.(output := x.env.output)
    ensures Typed(env) ==> Typed(x.env)
  {
    if pos + 1 > |t| then Exit(env, pos, Fail(MissingOperand))
    else match PrintLines(env, t[pos], order)
      case Failure(e) => Exit(env, pos, Fail(e))
      case Success(lines) => Exit(env.(output := env.output + lines), pos + 1, Done)
  }

  // ---------------------------------------------------------------------------
  // The dispatcher

  /** One top-level statement, with `pos` at its keyword (interpreter.rs:78-477). */
  function Step(t: seq<string>, pos: nat, env: Env, fuel: nat, order: KeyOrder): (p: Progress)
    requires pos < |t|
    ensures pos <= p.pos <= |t| && p.fuel <= fuel && env.output <= p.env.output
    ensures p.outcome.Done? ==> pos < p.pos
    ensures Typed(env) ==> Typed(p.env)
  {
    var word := t[pos];
    match LexemeOf(word)
    case None => Progress(env, pos, fuel, Fail(UnknownCommand(word)))
    case Some(l) =>
      match l
      case Var => Lift(VarStmt(t, pos + 1, env), fuel)
      case Array => Lift(ArrayStmt(t, pos + 1, env), fuel)
      case String => Lift(StringStmt(t, pos + 1, env), fuel)
      case Function => Lift(FunctionStmt(t, pos + 1, env), fuel)
      case Struct => Lift(StructStmt(t, pos + 1, env), fuel)
      case Print => Lift(PrintStmt(t, pos + 1, env, order), fuel)
      case Call => Lift(CallStmt(t, pos + 1, env), fuel)
      case If => Lift(IfStmt(t, pos + 1, env), fuel)
      case Loop => LoopStmt(t, pos + 1, env, fuel)
      case Add => Lift(UpdateStmt(t, pos + 1, env, Plus, false), fuel)
      case Sub => Lift(UpdateStmt(t, pos + 1, env, Minus, false), fuel)
      case Mul => Lift(UpdateStmt(t, pos + 1, env, Times, false), fuel)
      case Div => Lift(UpdateStmt(t, pos + 1, env, Quotient, false), fuel)
      case Abs => Lift(AbsStmt(t, pos + 1, env), fuel)
      case Pow => Lift(PowStmt(t, pos + 1, env), fuel)
      case End => Progress(env, pos + 1, fuel, Done)
      case Float | Sqrt | AddF | SubF | MulF | DivF => Progress(env, pos, fuel, Fail(Unmodelled(word)))
      case Else | Endstring | Endstruct => Progress(env, pos, fuel, Fail(UnknownCommand(word)))
  }

  /** The statements from `pos` to the end of the words, stopping at the first failure. */
  function RunFrom(t: seq<string>, pos: nat, env: Env, fuel: nat, order: KeyOrder): (p: Progress)
    requires pos <= |t|
    ensures pos <= p.pos <= |t| && p.fuel <= fuel && env.output <= p.env.output
    ensures p.outcome.Done? ==> p.pos == |t|
    decreases |t| - pos
    ensures Typed(env) ==> Typed(p.env)
  {
    if pos == |t| then Progress(env, pos, fuel, Done)
    else
      var s := Step(t, pos, env, fuel, order);
      if s.outcome.Fail? then s else RunFrom(t, s.pos, s.env, s.fuel, order)
  }

  /** `run(source_code)`: split the text into words, then run them all. */
  function RunSource(source: string, env: Env, fuel: nat, order: KeyOrder): Progress {
    RunFrom(Tokenize(source), 0, env, fuel, order)
  }

  /** Binds parameters to integer arguments pairwise, as `zip` does. */
  function ZipBind(parameters: seq<string>, args: seq<int>, vars: map<string, int>): map<string, int>
    decreases |args|
  {
    if parameters == [] || args == [] then vars
    else ZipBind(parameters[1..], args[1..], vars[parameters[0] := args[0]])
  }

  datatype HostCall = HostCall(printed: seq<string>, outcome: Outcome)

  /**
   * `call_function(name, parameters)` (interpreter.rs:482-493): a fresh interpreter,
   * holding only the bound parameters, runs the function's code joined with spaces.
   * Its output goes to its own stream, returned as `printed`.
   */
  function InvokeFunction(env: Env, name: string, args: seq<int>, fuel: nat, order: KeyOrder): HostCall
    requires forall i :: 0 <= i < |args| ==> InRange(args[i])
  {
    if name !in env.functions then HostCall([], Fail(UndefinedName(name)))
    else
      var f := env.functions[name];
      var start := EMPTY.(variables := ZipBind(f.parameters, args, map[]));
      var p := RunSource(Join(f.code), start, fuel, order);
      HostCall(p.env.output, p.outcome)
  }
}
