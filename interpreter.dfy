/**
 * `struct Interpreter` and its `run` loop (src/interpreter.rs): the tables are fields
 * that the statements update in place, and each statement walks an explicit cursor over
 * the words, as the source walks its `split_whitespace` iterator. Every method is
 * proved to leave the tables, the cursor and the outcome that its function in
 * `Semantics` describes; the properties of those functions are proved in `Properties`.
 */
module Neko {
  import opened Options
  import opened Int32
  import opened Lexemes
  import opened Lexer
  import opened Semantics

  class Interpreter {
    var variables: map<string, int>
    var arrays: map<string, seq<int>>
    var strings: map<string, string>
    var structs: map<string, map<string, int>>
    var functions: map<string, FunctionDef>
    var output: seq<string>
    /** The iteration order of the `HashMap`s that hold struct fields. */
    const keyOrder: KeyOrder

    /** The tables as a value. */
    function State(): Env
      reads this
    {
      Env(variables, arrays, strings, structs, functions, output)
    }

    /** `Interpreter::new` and `new_with_output_stream`: every table empty, nothing written. */
    constructor(order: KeyOrder)
      ensures State() == EMPTY && keyOrder == order
    {
      variables, arrays, strings, structs, functions, output := map[], map[], map[], map[], map[], [];
      keyOrder := order;
    }

    // -------------------------------------------------------------------------
    // Statements; `pos` is just after the keyword and `next` is the new cursor

    method ExecVar(t: seq<string>, pos: nat) returns (next: nat, r: Outcome)
      requires pos <= |t|
      modifies this
      ensures Exit(State(), next, r) == VarStmt(t, pos, old(State()))
    {
      if pos + 2 > |t| {
        return pos, Fail(MissingOperand);
      }
      var value := ParseI32(t[pos + 1]);
      if value.None? {
        return pos, Fail(ParseLiteral(t[pos + 1]));
      }
      variables := variables[t[pos] := value.value];
      return pos + 2, Done;
    }

    method ExecPrintInt(t: seq<string>, pos: nat) returns (next: nat, r: Outcome)
      requires pos <= |t|
      modifies this
      ensures Exit(State(), next, r) == PrintInt(t, pos, old(State()))
    {
      if pos + 1 > |t| {
        return pos, Fail(MissingOperand);
      }
      var name := t[pos];
      if name !in variables {
        return pos, Fail(UndefinedName(name));
      }
      output := output + [IntToString(variables[name])];
      return pos + 1, Done;
    }

    method ExecUpdate(t: seq<string>, pos: nat, op: ArithOp, compound: bool) returns (next: nat, r: Outcome)
      requires pos <= |t|
      modifies this
      ensures Exit(State(), next, r) == UpdateStmt(t, pos, old(State()), op, compound)
    {
      if pos + 2 > |t| {
        return pos, Fail(MissingOperand);
      }
      var name1, name2 := t[pos], t[pos + 1];
      if !compound && name1 !in variables {
        return pos, Fail(UndefinedName(name1));
      }
      if name2 !in variables {
        return pos, Fail(UndefinedName(name2));
      }
      if name1 !in variables {
        return pos, Fail(UndefinedName(name1));
      }
      var result := Arith(op, variables[name1], variables[name2]);
      if result.Failure? {
        return pos, Fail(result.error);
      }
      variables := variables[name1 := result.value];
      return pos + 2, Done;
    }

    method ExecAbs(t: seq<string>, pos: nat) returns (next: nat, r: Outcome)
      requires pos <= |t|
      modifies this
      ensures Exit(State(), next, r) == AbsStmt(t, pos, old(State()))
    {
      if pos + 1 > |t| {
        return pos, Fail(MissingOperand);
      }
      var name := t[pos];
      if name !in variables {
        return pos, Fail(UndefinedName(name));
      }
      var a := Int32.Abs(variables[name]);
      if !InRange(a) {
        return pos, Fail(Overflow);
      }
      variables := variables[name := a];
      return pos + 1, Done;
    }

    method ExecPow(t: seq<string>, pos: nat) returns (next: nat, r: Outcome)
      requires pos <= |t|
      modifies this
      ensures Exit(State(), next, r) == PowStmt(t, pos, old(State()))
    {
      if pos + 2 > |t| {
        return pos, Fail(MissingOperand);
      }
      var name1, name2 := t[pos], t[pos + 1];
      if name1 !in variables {
        return pos, Fail(UndefinedName(name1));
      }
      if name2 !in variables {
        return pos, Fail(UndefinedName(name2));
      }
      var result := Power(variables[name1], AsU32(variables[name2]));
      if !InRange(result) {
        return pos, Fail(Overflow);
      }
      variables := variables[name1 := result];
      return pos + 2, Done;
    }

    method ExecArray(t: seq<string>, pos: nat) returns (next: nat, r: Outcome)
      requires pos <= |t|
      modifies this
      ensures Exit(State(), next, r) == ArrayStmt(t, pos, old(State()))
    {
      if pos + 2 > |t| {
        return pos, Fail(MissingOperand);
      }
      var size := ParseUsize(t[pos + 1]);
      if size.None? {
        return pos, Fail(ParseLiteral(t[pos + 1]));
      }
      var n := size.value;
      var values := ReadValues(t, pos + 2, n);
      if values.Failure? {
        return pos, Fail(values.error);
      }
      arrays := arrays[t[pos] := values.value];
      return pos + 2 + n, Done;
    }

    /** The `for _ in 0..size` loop of `array`: `n` integer literals from `start` on. */
    static method ReadValues(t: seq<string>, start: nat, n: nat) returns (r: Result<seq<int>>)
      requires start <= |t|
      ensures r == ReadInts(t, start, n, [])
    {
      var values: seq<int> := [];
      var i := 0;
      while i < n
        invariant 0 <= i <= n && start + i <= |t|
        invariant ReadInts(t, start + i, n - i, values) == ReadInts(t, start, n, [])
        decreases n - i
      {
        if start + i == |t| {
          return Failure(MissingOperand);
        }
        var value := ParseI32(t[start + i]);
        if value.None? {
          return Failure(ParseLiteral(t[start + i]));
        }
        values := values + [value.value];
        i := i + 1;
      }
      return Success(values);
    }

    method ExecString(t: seq<string>, pos: nat) returns (next: nat, r: Outcome)
      requires pos <= |t|
      modifies this
      ensures Exit(State(), next, r) == StringStmt(t, pos, old(State()))
    {
      if pos + 1 > |t| {
        return pos, Fail(MissingOperand);
      }
      var value := "";
      ghost var words: seq<string> := [];
      var i := pos + 1;
      while i < |t| && t[i] != "endstring"
        invariant pos + 1 <= i <= |t|
        invariant StringWords(t, i, words) == StringWords(t, pos + 1, [])
        invariant value == Spaced(words)
        decreases |t| - i
      {
        assert words + [t[i]] == (words + [t[i]])[..|words|] + [t[i]];
        value := value + t[i] + " ";
        words := words + [t[i]];
        i := i + 1;
      }
      JoinSpaced(words);
      if |value| > 0 {
        value := value[..|value| - 1];
      }
      strings := strings[t[pos] := value];
      return if i == |t| then i else i + 1, Done;
    }

    method ExecStruct(t: seq<string>, pos: nat) returns (next: nat, r: Outcome)
      requires pos <= |t|
      modifies this
      ensures Exit(State(), next, r) == StructStmt(t, pos, old(State()))
    {
      if pos + 1 > |t| {
        return pos, Fail(MissingOperand);
      }
      var fields: map<string, int> := map[];
      var i := pos + 1;
      while i < |t| && t[i] != "endstruct"
        invariant pos + 1 <= i <= |t|
        invariant StructFields(t, i, fields) == StructFields(t, pos + 1, map[])
        invariant State() == old(State())
        decreases |t| - i
      {
        if i + 2 > |t| {
          return pos, Fail(MissingOperand);
        }
        var value := ParseI32(t[i + 1]);
        if value.None? {
          return pos, Fail(ParseLiteral(t[i + 1]));
        }
        fields := fields[t[i] := value.value];
        i := i + 2;
      }
      structs := structs[t[pos] := fields];
      return if i == |t| then i else i + 1, Done;
    }

    // -------------------------------------------------------------------------
    // Block bodies

    /** One statement of a block body, `pos` at its first word. */
    method ExecBodyStmt(t: seq<string>, pos: nat, full: bool) returns (next: nat, r: Outcome)
      requires pos < |t|
      modifies this
      ensures Exit(State(), next, r) == BodyStmt(t, pos, old(State()), full)
    {
      var word := LexemeOf(t[pos]);
      if word == Some(Var) {
        next, r := ExecVar(t, pos + 1);
      } else if word == Some(Print) {
        next, r := ExecPrintInt(t, pos + 1);
      } else if word == Some(Add) {
        next, r := ExecUpdate(t, pos + 1, Plus, true);
      } else if full && word == Some(Sub) {
        next, r := ExecUpdate(t, pos + 1, Minus, true);
      } else if full && word == Some(Mul) {
        next, r := ExecUpdate(t, pos + 1, Times, true);
      } else if full && word == Some(Div) {
        next, r := ExecUpdate(t, pos + 1, Quotient, true);
      } else {
        next, r := pos + 1, Done;
      }
    }

    method ExecBranch(t: seq<string>, pos: nat, stopAtElse: bool) returns (next: nat, r: Outcome)
      requires pos <= |t|
      modifies this
      ensures Exit(State(), next, r) == Branch(t, pos, old(State()), stopAtElse)
    {
      var i := pos;
      while i < |t| && !(t[i] == "end" || (stopAtElse && t[i] == "else"))
        invariant pos <= i <= |t|
        invariant Branch(t, i, State(), stopAtElse) == Branch(t, pos, old(State()), stopAtElse)
        decreases |t| - i
      {
        var j, s := ExecBodyStmt(t, i, true);
        if s.Fail? {
          return j, s;
        }
        i := j;
      }
      return if i == |t| then i else i + 1, Done;
    }

    method ExecSkipToElse(t: seq<string>, pos: nat) returns (next: nat, r: Outcome)
      requires pos <= |t|
      modifies this
      ensures Exit(State(), next, r) == SkipToElse(t, pos, old(State()))
    {
      var i := pos;
      while i < |t| && t[i] != "end" && t[i] != "else"
        invariant pos <= i <= |t|
        invariant SkipToElse(t, i, old(State())) == SkipToElse(t, pos, old(State()))
        invariant State() == old(State())
        decreases |t| - i
      {
        i := i + 1;
      }
      if i == |t| {
        return i, Done;
      } else if t[i] == "end" {
        return i + 1, Done;
      }
      next, r := ExecBranch(t, i + 1, false);
    }

    method ExecIf(t: seq<string>, pos: nat) returns (next: nat, r: Outcome)
      requires pos <= |t|
      modifies this
      ensures Exit(State(), next, r) == IfStmt(t, pos, old(State()))
    {
      var c := ReadCondition(t, pos);
      if c.Failure? {
        return pos, Fail(c.error);
      }
      var h := c.value;
      if h.name !in variables {
        return pos, Fail(UndefinedName(h.name));
      }
      if Holds(h.cmp, variables[h.name], h.bound) {
        next, r := ExecBranch(t, pos + 3, true);
      } else {
        next, r := ExecSkipToElse(t, pos + 3);
      }
    }

    /** One pass over a loop body from the loop's cursor `main`; returns the loop's new cursor. */
    method ExecLoopPass(t: seq<string>, main: nat) returns (next: nat, r: Outcome)
      requires main <= |t|
      modifies this
      ensures Exit(State(), next, r) == LoopPass(t, main, main, old(State()))
    {
      var cursor, inner := main, main;
      while inner < |t| && t[inner] != "end"
        invariant main <= cursor <= |t| && inner <= |t|
        invariant LoopPass(t, cursor, inner, State()) == LoopPass(t, main, main, old(State()))
        decreases |t| - inner
      {
        var op := StolenOp(t[inner]);
        if op.Some? {
          var j, s := ExecUpdate(t, cursor, op.value, true);
          if s.Fail? {
            return j, s;
          }
          cursor, inner := j, inner + 1;
        } else {
          var j, s := ExecBodyStmt(t, inner, false);
          if s.Fail? {
            return cursor, s;
          }
          inner := j;
        }
      }
      return cursor, Done;
    }

    method ExecLoop(t: seq<string>, pos: nat, fuel: nat) returns (next: nat, left: nat, r: Outcome)
      requires pos <= |t|
      modifies this
      ensures Progress(State(), next, left, r) == LoopStmt(t, pos, old(State()), fuel)
    {
      var c := ReadCondition(t, pos);
      if c.Failure? {
        return pos, fuel, Fail(c.error);
      }
      var h := c.value;
      var cursor: nat := pos + 3;
      left := fuel;
      while true
        invariant cursor <= |t|
        invariant LoopRun(t, cursor, State(), left, h) == LoopStmt(t, pos, old(State()), fuel)
        decreases left
      {
        if h.name !in variables {
          return cursor, left, Fail(UndefinedName(h.name));
        }
        if !Holds(h.cmp, variables[h.name], h.bound) {
          return cursor, left, Done;
        }
        if left == 0 {
          return cursor, left, Fail(OutOfFuel);
        }
        ghost var before := State();
        var j, s := ExecLoopPass(t, cursor);
        LoopRunPass(t, cursor, before, left, h, Exit(State(), j, s));
        if s.Fail? {
          return j, left - 1, s;
        }
        cursor, left := j, left - 1;
      }
    }

    // -------------------------------------------------------------------------
    // Functions

    method ExecFunction(t: seq<string>, pos: nat) returns (next: nat, r: Outcome)
      requires pos <= |t|
      modifies this
      ensures Exit(State(), next, r) == FunctionStmt(t, pos, old(State()))
    {
      if pos + 1 > |t| {
        return pos, Fail(MissingOperand);
      }
      var name := t[pos];
      var code: seq<string> := [];
      var i := pos + 1;
      while i < |t| && t[i] != "end" && t[i] != "with"
        invariant pos + 1 <= i <= |t|
        invariant CollectCode(t, i, old(State()), name, code) == FunctionStmt(t, pos, old(State()))
        invariant State() == old(State())
        decreases |t| - i
      {
        code := code + [t[i]];
        i := i + 1;
      }
      if i == |t| || t[i] == "end" {
        functions := functions[name := FunctionDef([], code)];
        return if i == |t| then i else i + 1, Done;
      }
      var parameters: seq<string> := [];
      var j := i + 1;
      while j < |t| && t[j] != "end"
        invariant i + 1 <= j <= |t|
        invariant WithBody(t, j, State(), parameters) == WithBody(t, i + 1, old(State()), [])
        decreases |t| - j
      {
        var k, s := ExecBodyStmt(t, j, false);
        if s.Fail? {
          return k, s;
        }
        parameters := parameters + [t[j]];
        j := k;
      }
      functions := functions[name := FunctionDef(parameters, code)];
      return if j == |t| then j else j + 1, Done;
    }

    method ExecCall(t: seq<string>, pos: nat) returns (next: nat, r: Outcome)
      requires pos <= |t|
      modifies this
      ensures Exit(State(), next, r) == CallStmt(t, pos, old(State()))
    {
      if pos + 1 > |t| {
        return pos, Fail(MissingOperand);
      }
      var name := t[pos];
      if name !in functions {
        return pos, Fail(UndefinedName(name));
      }
      var f := functions[name];
      var k := if |f.parameters| <= |t| - (pos + 1) then |f.parameters| else |t| - (pos + 1);
      var bound := Bind(f.parameters, t[pos + 1..pos + 1 + k]);
      if bound.Failure? {
        return pos, Fail(bound.error);
      }
      var locals := bound.value;
      var code := f.code;
      var c := 0;
      while c < |code|
        invariant c <= |code|
        invariant CallBody(code, c, State(), locals) == CallBody(code, 0, old(State()), bound.value)
        decreases |code| - c
      {
        var word := LexemeOf(code[c]);
        if word == Some(Var) {
          if c + 3 > |code| {
            return pos, Fail(MissingOperand);
          }
          var value := ParseI32(code[c + 2]);
          if value.None? {
            return pos, Fail(ParseLiteral(code[c + 2]));
          }
          locals := locals[code[c + 1] := value.value];
          c := c + 3;
        } else if word == Some(Print) || word == Some(Add) {
          var j, s := ExecBodyStmt(code, c, false);
          if s.Fail? {
            return pos, s;
          }
          c := j;
        } else {
          c := c + 1;
        }
      }
      return pos + 1 + k, Done;
    }

    /** The `zip` loop of `call`: each argument word parsed and bound to its parameter. */
    static method Bind(parameters: seq<string>, args: seq<string>) returns (r: Result<map<string, int>>)
      requires |args| <= |parameters|
      ensures r == BindArguments(parameters, args, map[])
    {
      var locals: map<string, int> := map[];
      var i := 0;
      while i < |args|
        invariant 0 <= i <= |args|
        invariant BindArguments(parameters[i..], args[i..], locals) == BindArguments(parameters, args, map[])
        decreases |args| - i
      {
        assert parameters[i..][1..] == parameters[i + 1..] && args[i..][1..] == args[i + 1..];
        var value := ParseI32(args[i]);
        if value.None? {
          return Failure(ParseLiteral(args[i]));
        }
        locals := locals[parameters[i] := value.value];
        i := i + 1;
      }
      assert args[i..] == [];
      return Success(locals);
    }

    // -------------------------------------------------------------------------
    // Printing

    method ExecPrint(t: seq<string>, pos: nat) returns (next: nat, r: Outcome)
      requires pos <= |t|
      modifies this
      ensures Exit(State(), next, r) == PrintStmt(t, pos, old(State()), keyOrder)
    {
      if pos + 1 > |t| {
        return pos, Fail(MissingOperand);
      }
      var name := t[pos];
      if name in variables {
        output := output + [IntToString(variables[name])];
      } else if name in arrays {
        PrintArray(name, arrays[name]);
      } else if name in structs {
        PrintFields(name, structs[name]);
      } else if name in strings {
        output := output + [strings[name]];
      } else {
        return pos, Fail(UndefinedName(name));
      }
      return pos + 1, Done;
    }

    /** Writes one line per element of `a`, in index order. */
    method PrintArray(name: string, a: seq<int>)
      modifies this
      ensures State() == old(State()).(output := old(output) + ArrayLines(name, a))
    {
      var i := 0;
      while i < |a|
        invariant 0 <= i <= |a|
        invariant State() == old(State()).(output := old(output) + ArrayLines(name, a)[..i])
        decreases |a| - i
      {
        assert ArrayLines(name, a)[..i + 1] == ArrayLines(name, a)[..i] + [ArrayLine(name, i, a[i])];
        output := output + [ArrayLine(name, i, a[i])];
        i := i + 1;
      }
      assert ArrayLines(name, a)[..|a|] == ArrayLines(name, a);
    }

    /** Writes one line per field, in the order the map is iterated. */
    method PrintFields(name: string, fields: map<string, int>)
      modifies this
      ensures State() == old(State()).(output := old(output) + FieldLines(name, fields, keyOrder(fields)))
    {
      var keys := keyOrder(fields);
      assert forall j :: 0 <= j < |keys| ==> keys[j] in fields;
      ghost var lines := FieldLines(name, fields, keys);
      var i := 0;
      while i < |keys|
        invariant 0 <= i <= |keys|
        invariant output == old(output) + lines[..i]
        invariant variables == old(variables) && arrays == old(arrays) && strings == old(strings)
        invariant structs == old(structs) && functions == old(functions)
        decreases |keys| - i
      {
        var key := keys[i];
        assert lines[..i + 1] == lines[..i] + [FieldLine(name, key, fields[key])];
        output := output + [FieldLine(name, key, fields[key])];
        i := i + 1;
      }
      assert lines[..|keys|] == lines;
    }

    // -------------------------------------------------------------------------
    // The dispatcher

    /** One top-level statement, `pos` at its keyword. */
    method ExecStatement(t: seq<string>, pos: nat, fuel: nat) returns (next: nat, left: nat, r: Outcome)
      requires pos < |t|
      modifies this
      ensures Progress(State(), next, left, r) == Step(t, pos, old(State()), fuel, keyOrder)
    {
      var word := t[pos];
      var lexeme := LexemeOf(word);
      if lexeme.None? {
        return pos, fuel, Fail(UnknownCommand(word));
      }
      left := fuel;
      match lexeme.value
      case Var => next, r := ExecVar(t, pos + 1);
      case Array => next, r := ExecArray(t, pos + 1);
      case String => next, r := ExecString(t, pos + 1);
      case Function => next, r := ExecFunction(t, pos + 1);
      case Struct => next, r := ExecStruct(t, pos + 1);
      case Print => next, r := ExecPrint(t, pos + 1);
      case Call => next, r := ExecCall(t, pos + 1);
      case If => next, r := ExecIf(t, pos + 1);
      case Loop => next, left, r := ExecLoop(t, pos + 1, fuel);
      case Add => next, r := ExecUpdate(t, pos + 1, Plus, false);
      case Sub => next, r := ExecUpdate(t, pos + 1, Minus, false);
      case Mul => next, r := ExecUpdate(t, pos + 1, Times, false);
      case Div => next, r := ExecUpdate(t, pos + 1, Quotient, false);
      case Abs => next, r := ExecAbs(t, pos + 1);
      case Pow => next, r := ExecPow(t, pos + 1);
      case End => next, r := pos + 1, Done;
      case Float | Sqrt | AddF | SubF | MulF | DivF => next, r := pos, Fail(Unmodelled(word));
      case Else | Endstring | Endstruct => next, r := pos, Fail(UnknownCommand(word));
    }

    /** The top-level loop of `run` over the words `t`. */
    method ExecTokens(t: seq<string>, fuel: nat) returns (next: nat, left: nat, r: Outcome)
      modifies this
      ensures Progress(State(), next, left, r) == RunFrom(t, 0, old(State()), fuel, keyOrder)
    {
      var pos := 0;
      left := fuel;
      while pos < |t|
        invariant pos <= |t|
        invariant RunFrom(t, pos, State(), left, keyOrder) == RunFrom(t, 0, old(State()), fuel, keyOrder)
        decreases |t| - pos
      {
        var j, l, s := ExecStatement(t, pos, left);
        if s.Fail? {
          return j, l, s;
        }
        pos, left := j, l;
      }
      return pos, left, Done;
    }

    /** `run(source_code)`: at most `fuel` loop passes in all. */
    method Run(source: string, fuel: nat) returns (r: Outcome)
      modifies this
      ensures var p := RunSource(source, old(State()), fuel, keyOrder); State() == p.env && r == p.outcome
    {
      var t := Tokenize(source);
      var next, left;
      next, left, r := ExecTokens(t, fuel);
    }

    /**
     * `call_function(name, parameters)`: runs the function's code in a fresh interpreter
     * and returns what that interpreter printed; this interpreter is left as it was.
     */
    method CallFunction(name: string, args: seq<int>, fuel: nat) returns (printed: seq<string>, r: Outcome)
      requires forall i :: 0 <= i < |args| ==> InRange(args[i])
      ensures HostCall(printed, r) == InvokeFunction(State(), name, args, fuel, keyOrder)
    {
      if name !in functions {
        return [], Fail(UndefinedName(name));
      }
      var f := functions[name];
      var callee := new Interpreter(keyOrder);
      var i := 0;
      while i < |f.parameters| && i < |args|
        invariant 0 <= i <= |f.parameters| && i <= |args|
        invariant callee.State() == EMPTY.(variables := callee.variables)
        invariant ZipBind(f.parameters[i..], args[i..], callee.variables) == ZipBind(f.parameters, args, map[])
        decreases |args| - i
      {
        assert f.parameters[i..][1..] == f.parameters[i + 1..] && args[i..][1..] == args[i + 1..];
        callee.variables := callee.variables[f.parameters[i] := args[i]];
        i := i + 1;
      }
      r := callee.Run(Join(f.code), fuel);
      printed := callee.output;
    }
  }
}
