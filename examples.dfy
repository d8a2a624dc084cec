/**
 * The programs of the repository's tests (tests/interpreter_test.rs), run through the
 * semantics word by word. Two tests also use `float` and `add_f`, which are outside this
 * model; they appear here with those statements removed.
 */
module Examples {
  import opened Options
  import opened Int32
  import opened Lexemes
  import opened Semantics
  import Properties

  // ---------------------------------------------------------------------------
  // Which statement the dispatcher runs for each keyword the tests use

  lemma DispatchVar(t: seq<string>, pos: nat, env: Env, fuel: nat, order: KeyOrder, x: Exit)
    requires pos < |t| && t[pos] == "var" && VarStmt(t, pos + 1, env) == x
    ensures Step(t, pos, env, fuel, order) == Lift(x, fuel)
  {
    assert LexemeOf(t[pos]) == Some(Var);
  }

  lemma DispatchAdd(t: seq<string>, pos: nat, env: Env, fuel: nat, order: KeyOrder, x: Exit)
    requires pos < |t| && t[pos] == "add" && UpdateStmt(t, pos + 1, env, Plus, false) == x
    ensures Step(t, pos, env, fuel, order) == Lift(x, fuel)
  {
    assert LexemeOf(t[pos]) == Some(Add);
  }

  lemma DispatchPrint(t: seq<string>, pos: nat, env: Env, fuel: nat, order: KeyOrder, x: Exit)
    requires pos < |t| && t[pos] == "print" && PrintStmt(t, pos + 1, env, order) == x
    ensures Step(t, pos, env, fuel, order) == Lift(x, fuel)
  {
    assert LexemeOf(t[pos]) == Some(Print);
  }

  lemma DispatchString(t: seq<string>, pos: nat, env: Env, fuel: nat, order: KeyOrder, x: Exit)
    requires pos < |t| && t[pos] == "string" && StringStmt(t, pos + 1, env) == x
    ensures Step(t, pos, env, fuel, order) == Lift(x, fuel)
  {
    assert LexemeOf(t[pos]) == Some(String);
  }

  lemma DispatchStruct(t: seq<string>, pos: nat, env: Env, fuel: nat, order: KeyOrder, x: Exit)
    requires pos < |t| && t[pos] == "struct" && StructStmt(t, pos + 1, env) == x
    ensures Step(t, pos, env, fuel, order) == Lift(x, fuel)
  {
    assert LexemeOf(t[pos]) == Some(Struct);
  }

  lemma DispatchCall(t: seq<string>, pos: nat, env: Env, fuel: nat, order: KeyOrder, x: Exit)
    requires pos < |t| && t[pos] == "call" && CallStmt(t, pos + 1, env) == x
    ensures Step(t, pos, env, fuel, order) == Lift(x, fuel)
  {
    assert LexemeOf(t[pos]) == Some(Call);
  }

  lemma DispatchFunction(t: seq<string>, pos: nat, env: Env, fuel: nat, order: KeyOrder, x: Exit)
    requires pos < |t| && t[pos] == "function" && FunctionStmt(t, pos + 1, env) == x
    ensures Step(t, pos, env, fuel, order) == Lift(x, fuel)
  {
    assert LexemeOf(t[pos]) == Some(Function);
  }

  lemma DispatchLoop(t: seq<string>, pos: nat, env: Env, fuel: nat, order: KeyOrder, p: Progress)
    requires pos < |t| && t[pos] == "loop" && LoopStmt(t, pos + 1, env, fuel) == p
    ensures Step(t, pos, env, fuel, order) == p
  {
    assert LexemeOf(t[pos]) == Some(Loop);
  }

  lemma DispatchEnd(t: seq<string>, pos: nat, env: Env, fuel: nat, order: KeyOrder)
    requires pos < |t| && t[pos] == "end"
    ensures Step(t, pos, env, fuel, order) == Progress(env, pos + 1, fuel, Done)
  {
    assert LexemeOf(t[pos]) == Some(End);
  }

  /** A statement that succeeds hands the rest of the run its new state and cursor. */
  lemma Next(t: seq<string>, pos: nat, env: Env, fuel: nat, order: KeyOrder, s: Progress)
    requires pos < |t| && Step(t, pos, env, fuel, order) == s && s.outcome.Done?
    ensures RunFrom(t, pos, env, fuel, order) == RunFrom(t, s.pos, s.env, s.fuel, order)
  {
  }

  // How a block body, a `with` body, a loop pass and a loop go on

  lemma BodyVar(t: seq<string>, pos: nat, env: Env)
    requires pos < |t| && t[pos] == "var"
    ensures BodyStmt(t, pos, env, false) == VarStmt(t, pos + 1, env)
  {
    assert LexemeOf(t[pos]) == Some(Var);
  }

  lemma BodyAdd(t: seq<string>, pos: nat, env: Env)
    requires pos < |t| && t[pos] == "add"
    ensures BodyStmt(t, pos, env, false) == UpdateStmt(t, pos + 1, env, Plus, true)
  {
    assert LexemeOf(t[pos]) == Some(Add);
  }

  lemma BodyPrint(t: seq<string>, pos: nat, env: Env)
    requires pos < |t| && t[pos] == "print"
    ensures BodyStmt(t, pos, env, false) == PrintInt(t, pos + 1, env)
  {
    assert LexemeOf(t[pos]) == Some(Print);
  }

  lemma WithBodyNext(t: seq<string>, pos: nat, env: Env, parameters: seq<string>, x: Exit, next: seq<string>)
    requires pos < |t| && t[pos] != "end" && BodyStmt(t, pos, env, false) == x && x.outcome.Done?
    requires next == parameters + [t[pos]]
    ensures WithBody(t, pos, env, parameters) == WithBody(t, x.pos, x.env, next)
  {
  }

  lemma PassNext(t: seq<string>, main: nat, inner: nat, env: Env, x: Exit)
    requires main <= |t| && inner < |t| && t[inner] != "end" && StolenOp(t[inner]).None?
    requires BodyStmt(t, inner, env, false) == x && x.outcome.Done?
    ensures LoopPass(t, main, inner, env) == LoopPass(t, main, x.pos, x.env)
  {
  }

  lemma RunNext(t: seq<string>, main: nat, env: Env, fuel: nat, c: Condition, x: Exit)
    requires main <= |t| && fuel > 0 && c.name in env.variables && Holds(c.cmp, env.variables[c.name], c.bound)
    requires LoopPass(t, main, main, env) == x && x.outcome.Done?
    ensures LoopRun(t, main, env, fuel, c) == LoopRun(t, x.pos, x.env, fuel - 1, c)
  {
  }

  // ---------------------------------------------------------------------------
  // test_add_variables, integer part
  //
  // Each test's program is a constant; its statements are reasoned about over any word
  // sequence that spells the program word by word, and the last lemma of each section
  // applies the result to the constant.

  const ADD_TEST: seq<string> :=
    ["var", "integer_a", "7", "var", "integer_b", "9", "add", "integer_a", "integer_b", "print", "integer_a"]

  predicate IsAddTest(t: seq<string>) {
    && |t| == 11 && t[0] == "var" && t[1] == "integer_a" && t[2] == "7" && t[3] == "var"
    && t[4] == "integer_b" && t[5] == "9" && t[6] == "add" && t[7] == "integer_a"
    && t[8] == "integer_b" && t[9] == "print" && t[10] == "integer_a"
  }

  function Add1(): Env { EMPTY.(variables := map["integer_a" := 7]) }
  function Add2(): Env { EMPTY.(variables := map["integer_a" := 7, "integer_b" := 9]) }
  function Add3(): Env { EMPTY.(variables := map["integer_a" := 16, "integer_b" := 9]) }
  function Add4(): Env { Add3().(output := ["16"]) }

  lemma AddStep0(t: seq<string>, order: KeyOrder)
    requires IsAddTest(t)
    ensures Step(t, 0, EMPTY, 0, order) == Progress(Add1(), 3, 0, Done)
  {
    assert ParseI32("7") == Some(7);
    DispatchVar(t, 0, EMPTY, 0, order, Exit(Add1(), 3, Done));
  }

  lemma AddStep1(t: seq<string>, order: KeyOrder)
    requires IsAddTest(t)
    ensures Step(t, 3, Add1(), 0, order) == Progress(Add2(), 6, 0, Done)
  {
    assert ParseI32("9") == Some(9);
    DispatchVar(t, 3, Add1(), 0, order, Exit(Add2(), 6, Done));
  }

  lemma AddStep2(t: seq<string>, order: KeyOrder)
    requires IsAddTest(t)
    ensures Step(t, 6, Add2(), 0, order) == Progress(Add3(), 9, 0, Done)
  {
    assert Arith(Plus, 7, 9) == Success(16);
    assert Add2().variables["integer_a" := 16] == Add3().variables;
    DispatchAdd(t, 6, Add2(), 0, order, Exit(Add3(), 9, Done));
  }

  lemma AddStep3(t: seq<string>, order: KeyOrder)
    requires IsAddTest(t)
    ensures Step(t, 9, Add3(), 0, order) == Progress(Add4(), 11, 0, Done)
  {
    assert IntToString(16) == "16";
    DispatchPrint(t, 9, Add3(), 0, order, Exit(Add4(), 11, Done));
  }

  lemma AddRun(t: seq<string>, order: KeyOrder)
    requires IsAddTest(t)
    ensures RunFrom(t, 0, EMPTY, 0, order) == RunFrom(t, 11, Add4(), 0, order)
  {
    AddStep0(t, order);
    AddStep1(t, order);
    AddStep2(t, order);
    AddStep3(t, order);
    Next(t, 0, EMPTY, 0, order, Progress(Add1(), 3, 0, Done));
    Next(t, 3, Add1(), 0, order, Progress(Add2(), 6, 0, Done));
    Next(t, 6, Add2(), 0, order, Progress(Add3(), 9, 0, Done));
    Next(t, 9, Add3(), 0, order, Progress(Add4(), 11, 0, Done));
  }

  /** `var integer_a 7  var integer_b 9  add integer_a integer_b  print integer_a` prints 16. */
  lemma AddProgram(order: KeyOrder)
    ensures var p := RunFrom(ADD_TEST, 0, EMPTY, 0, order);
      p.outcome == Done && p.env.output == ["16"]
  {
    AddRun(ADD_TEST, order);
  }

  // ---------------------------------------------------------------------------
  // test_create_variables, without the float

  const STRING_TEST: seq<string> :=
    ["var", "integer_var", "5", "string", "string_var", "I", "am", "a", "string", "endstring",
     "print", "integer_var", "print", "string_var"]

  predicate IsStringTest(t: seq<string>) {
    && |t| == 14 && t[0] == "var" && t[1] == "integer_var" && t[2] == "5" && t[3] == "string"
    && t[4] == "string_var" && t[5] == "I" && t[6] == "am" && t[7] == "a" && t[8] == "string"
    && t[9] == "endstring" && t[10] == "print" && t[11] == "integer_var" && t[12] == "print"
    && t[13] == "string_var"
  }

  const SENTENCE: seq<string> := ["I", "am", "a", "string"]

  function Str1(): Env { EMPTY.(variables := map["integer_var" := 5]) }
  function Str2(): Env { Str1().(strings := map["string_var" := "I am a string"]) }
  function Str3(): Env { Str2().(output := ["5"]) }
  function Str4(): Env { Str2().(output := ["5", "I am a string"]) }

  /** The literal's words are read up to `endstring`, which is consumed; `string` is an ordinary word there. */
  lemma SentenceRead(t: seq<string>)
    requires IsStringTest(t)
    ensures StringWords(t, 5, []) == Words(SENTENCE, 10)
  {
    assert ["I"] == [] + ["I"] && ["I", "am"] == ["I"] + ["am"];
    assert ["I", "am", "a"] == ["I", "am"] + ["a"] && SENTENCE == ["I", "am", "a"] + ["string"];
    assert StringWords(t, 9, SENTENCE) == Words(SENTENCE, 10);
    assert StringWords(t, 8, ["I", "am", "a"]) == StringWords(t, 9, SENTENCE);
    assert StringWords(t, 7, ["I", "am"]) == StringWords(t, 8, ["I", "am", "a"]);
    assert StringWords(t, 6, ["I"]) == StringWords(t, 7, ["I", "am"]);
    assert StringWords(t, 5, []) == StringWords(t, 6, ["I"]);
  }

  lemma StringStep0(t: seq<string>, order: KeyOrder)
    requires IsStringTest(t)
    ensures Step(t, 0, EMPTY, 0, order) == Progress(Str1(), 3, 0, Done)
  {
    assert ParseI32("5") == Some(5);
    DispatchVar(t, 0, EMPTY, 0, order, Exit(Str1(), 3, Done));
  }

  lemma StrString(t: seq<string>)
    requires IsStringTest(t)
    ensures StringStmt(t, 4, Str1()) == Exit(Str2(), 10, Done)
  {
    SentenceRead(t);
    assert Lexer.Join(SENTENCE) == "I am a string";
  }

  lemma StringStep1(t: seq<string>, order: KeyOrder)
    requires IsStringTest(t)
    ensures Step(t, 3, Str1(), 0, order) == Progress(Str2(), 10, 0, Done)
  {
    StrString(t);
    DispatchString(t, 3, Str1(), 0, order, Exit(Str2(), 10, Done));
  }

  lemma StringStep2(t: seq<string>, order: KeyOrder)
    requires IsStringTest(t)
    ensures Step(t, 10, Str2(), 0, order) == Progress(Str3(), 12, 0, Done)
  {
    assert IntToString(5) == "5";
    DispatchPrint(t, 10, Str2(), 0, order, Exit(Str3(), 12, Done));
  }

  lemma StringStep3(t: seq<string>, order: KeyOrder)
    requires IsStringTest(t)
    ensures Step(t, 12, Str3(), 0, order) == Progress(Str4(), 14, 0, Done)
  {
    DispatchPrint(t, 12, Str3(), 0, order, Exit(Str4(), 14, Done));
  }

  lemma StringRun(t: seq<string>, order: KeyOrder)
    requires IsStringTest(t)
    ensures RunFrom(t, 0, EMPTY, 0, order) == RunFrom(t, 14, Str4(), 0, order)
  {
    StringStep0(t, order);
    StringStep1(t, order);
    StringStep2(t, order);
    StringStep3(t, order);
    Next(t, 0, EMPTY, 0, order, Progress(Str1(), 3, 0, Done));
    Next(t, 3, Str1(), 0, order, Progress(Str2(), 10, 0, Done));
    Next(t, 10, Str2(), 0, order, Progress(Str3(), 12, 0, Done));
    Next(t, 12, Str3(), 0, order, Progress(Str4(), 14, 0, Done));
  }

  /** `var integer_var 5  string string_var I am a string endstring  print integer_var  print string_var`. */
  lemma StringProgram(order: KeyOrder)
    ensures var p := RunFrom(STRING_TEST, 0, EMPTY, 0, order);
      p.outcome == Done && p.env.output == ["5", "I am a string"]
  {
    StringRun(STRING_TEST, order);
  }

  // ---------------------------------------------------------------------------
  // test_function_without_parameters

  const FUNCTION_TEST: seq<string> :=
    ["function", "sum_5_6", "with", "var", "a", "5", "var", "b", "6", "add", "a", "b", "print", "a", "end",
     "call", "sum_5_6"]

  predicate IsFunctionTest(t: seq<string>) {
    && |t| == 17 && t[0] == "function" && t[1] == "sum_5_6" && t[2] == "with" && t[3] == "var"
    && t[4] == "a" && t[5] == "5" && t[6] == "var" && t[7] == "b" && t[8] == "6" && t[9] == "add"
    && t[10] == "a" && t[11] == "b" && t[12] == "print" && t[13] == "a" && t[14] == "end"
    && t[15] == "call" && t[16] == "sum_5_6"
  }

  const SUM_5_6: FunctionDef := FunctionDef(["var", "var", "add", "print"], [])

  // The environment inside the `with` body after each of its statements.
  function Body1(e: Env): Env { e.(variables := e.variables["a" := 5]) }
  function Body2(e: Env): Env { Body1(e).(variables := Body1(e).variables["b" := 6]) }
  function Body3(e: Env): Env { Body2(e).(variables := Body2(e).variables["a" := 11]) }
  function Body4(e: Env): Env { Body3(e).(output := e.output + ["11"]) }

  function Declaring(e: Env): Env { Register(Body4(e), "sum_5_6", SUM_5_6) }

  lemma BodyA(t: seq<string>, e: Env)
    requires IsFunctionTest(t)
    ensures BodyStmt(t, 3, e, false) == Exit(Body1(e), 6, Done)
  {
    assert ParseI32("5") == Some(5);
    BodyVar(t, 3, e);
  }

  lemma BodyB(t: seq<string>, e: Env)
    requires IsFunctionTest(t)
    ensures BodyStmt(t, 6, Body1(e), false) == Exit(Body2(e), 9, Done)
  {
    assert ParseI32("6") == Some(6);
    BodyVar(t, 6, Body1(e));
  }

  lemma BodySum(t: seq<string>, e: Env)
    requires IsFunctionTest(t)
    ensures BodyStmt(t, 9, Body2(e), false) == Exit(Body3(e), 12, Done)
  {
    assert Arith(Plus, 5, 6) == Success(11);
    BodyAdd(t, 9, Body2(e));
  }

  lemma BodyOut(t: seq<string>, e: Env)
    requires IsFunctionTest(t)
    ensures BodyStmt(t, 12, Body3(e), false) == Exit(Body4(e), 14, Done)
  {
    assert IntToString(11) == "11";
    BodyPrint(t, 12, Body3(e));
  }

  /** The `with` body runs while it is declared, and each keyword it dispatched is recorded. */
  lemma WithBodyRuns(t: seq<string>, e: Env)
    requires IsFunctionTest(t)
    ensures WithBody(t, 3, e, []) == Declared(Body4(e), 15, SUM_5_6.parameters, Done)
  {
    BodyA(t, e);
    BodyB(t, e);
    BodySum(t, e);
    BodyOut(t, e);
    WithBodyNext(t, 3, e, [], Exit(Body1(e), 6, Done), ["var"]);
    WithBodyNext(t, 6, Body1(e), ["var"], Exit(Body2(e), 9, Done), ["var", "var"]);
    WithBodyNext(t, 9, Body2(e), ["var", "var"], Exit(Body3(e), 12, Done), ["var", "var", "add"]);
    WithBodyNext(t, 12, Body3(e), ["var", "var", "add"], Exit(Body4(e), 14, Done), SUM_5_6.parameters);
    assert WithBody(t, 14, Body4(e), SUM_5_6.parameters) == Declared(Body4(e), 15, SUM_5_6.parameters, Done);
  }

  /** The declaration runs the body and records the function, with no code to run later. */
  lemma Declaration(t: seq<string>, e: Env)
    requires IsFunctionTest(t)
    ensures FunctionStmt(t, 1, e) == Exit(Declaring(e), 15, Done)
  {
    WithBodyRuns(t, e);
  }

  lemma FunctionStep0(t: seq<string>, env: Env, order: KeyOrder)
    requires IsFunctionTest(t)
    ensures Step(t, 0, env, 0, order) == Progress(Declaring(env), 15, 0, Done)
  {
    Declaration(t, env);
    DispatchFunction(t, 0, env, 0, order, Exit(Declaring(env), 15, Done));
  }

  /** The call finds no code to run, and binds no argument: the words after it are used up. */
  lemma EmptyCall(t: seq<string>, e: Env)
    requires IsFunctionTest(t)
    ensures CallStmt(t, 16, Declaring(e)) == Exit(Declaring(e), 17, Done)
  {
    assert t[17..17] == [];
  }

  lemma FunctionStep1(t: seq<string>, env: Env, order: KeyOrder)
    requires IsFunctionTest(t)
    ensures Step(t, 15, Declaring(env), 0, order) == Progress(Declaring(env), 17, 0, Done)
  {
    EmptyCall(t, env);
    DispatchCall(t, 15, Declaring(env), 0, order, Exit(Declaring(env), 17, Done));
  }

  lemma FunctionRun(t: seq<string>, env: Env, order: KeyOrder)
    requires IsFunctionTest(t)
    ensures RunFrom(t, 0, env, 0, order) == RunFrom(t, 17, Declaring(env), 0, order)
  {
    FunctionStep0(t, env, order);
    FunctionStep1(t, env, order);
    Next(t, 0, env, 0, order, Progress(Declaring(env), 15, 0, Done));
    Next(t, 15, Declaring(env), 0, order, Progress(Declaring(env), 17, 0, Done));
  }

  /**
   * `function sum_5_6 with var a 5 var b 6 add a b print a end  call sum_5_6` prints 11 once,
   * from any starting state: the body runs at the declaration, what is recorded as code is
   * empty, and the call then does nothing.
   */
  lemma FunctionProgram(env: Env, order: KeyOrder)
    ensures var p := RunFrom(FUNCTION_TEST, 0, env, 0, order);
      && p.outcome == Done && p.env.output == env.output + ["11"]
      && p.env.functions == env.functions["sum_5_6" := FunctionDef(["var", "var", "add", "print"], [])]
  {
    FunctionRun(FUNCTION_TEST, env, order);
  }

  // ---------------------------------------------------------------------------
  // test_struct

  const STRUCT_TEST: seq<string> :=
    ["struct", "game_scores", "team_a", "5", "team_b", "3", "endstruct", "print", "game_scores"]

  predicate IsStructTest(t: seq<string>) {
    && |t| == 9 && t[0] == "struct" && t[1] == "game_scores" && t[2] == "team_a" && t[3] == "5"
    && t[4] == "team_b" && t[5] == "3" && t[6] == "endstruct" && t[7] == "print" && t[8] == "game_scores"
  }

  const SCORES: map<string, int> := map["team_a" := 5, "team_b" := 3]

  function Scored(): Env { EMPTY.(structs := map["game_scores" := SCORES]) }

  function ScoreLines(order: KeyOrder): seq<string> { FieldLines("game_scores", SCORES, order(SCORES)) }

  lemma ScoresRead(t: seq<string>)
    requires IsStructTest(t)
    ensures StructFields(t, 2, map[]) == Success(Fields(SCORES, 7))
  {
    assert ParseI32("5") == Some(5) && ParseI32("3") == Some(3);
    assert StructFields(t, 6, SCORES) == Success(Fields(SCORES, 7));
    assert StructFields(t, 4, map["team_a" := 5]) == StructFields(t, 6, SCORES);
    assert StructFields(t, 2, map[]) == StructFields(t, 4, map["team_a" := 5]);
  }

  lemma StructDeclared(t: seq<string>)
    requires IsStructTest(t)
    ensures StructStmt(t, 1, EMPTY) == Exit(Scored(), 7, Done)
  {
    ScoresRead(t);
    assert EMPTY.structs["game_scores" := SCORES] == Scored().structs;
  }

  lemma StructStep0(t: seq<string>, order: KeyOrder)
    requires IsStructTest(t)
    ensures Step(t, 0, EMPTY, 0, order) == Progress(Scored(), 7, 0, Done)
  {
    StructDeclared(t);
    DispatchStruct(t, 0, EMPTY, 0, order, Exit(Scored(), 7, Done));
  }

  lemma StructStep1(t: seq<string>, order: KeyOrder)
    requires IsStructTest(t)
    ensures Step(t, 7, Scored(), 0, order) == Progress(Scored().(output := ScoreLines(order)), 9, 0, Done)
  {
    DispatchPrint(t, 7, Scored(), 0, order, Exit(Scored().(output := ScoreLines(order)), 9, Done));
  }

  lemma StructRun(t: seq<string>, order: KeyOrder)
    requires IsStructTest(t)
    ensures RunFrom(t, 0, EMPTY, 0, order) == RunFrom(t, 9, Scored().(output := ScoreLines(order)), 0, order)
  {
    StructStep0(t, order);
    StructStep1(t, order);
    Next(t, 0, EMPTY, 0, order, Progress(Scored(), 7, 0, Done));
    Next(t, 7, Scored(), 0, order, Progress(Scored().(output := ScoreLines(order)), 9, 0, Done));
  }

  lemma ScoreLineA()
    ensures FieldLine("game_scores", "team_a", SCORES["team_a"]) == "game_scores.team_a = 5"
  {
    assert IntToString(5) == "5";
  }

  lemma ScoreLineB()
    ensures FieldLine("game_scores", "team_b", SCORES["team_b"]) == "game_scores.team_b = 3"
  {
    assert IntToString(3) == "3";
  }

  /** Whatever the order of the fields, both of them are printed, once each. */
  lemma ScoresPrinted(order: KeyOrder)
    ensures var lines := ScoreLines(order);
      |lines| == 2 && "game_scores.team_a = 5" in lines && "game_scores.team_b = 3" in lines
  {
    assert SCORES.Keys == {"team_a", "team_b"};
    Properties.StructLines("game_scores", SCORES, order);
    ScoreLineA();
    ScoreLineB();
  }

  /** `struct game_scores team_a 5 team_b 3 endstruct  print game_scores`: two lines, in some order. */
  lemma StructProgram(order: KeyOrder)
    ensures var p := RunFrom(STRUCT_TEST, 0, EMPTY, 0, order);
      && p.outcome == Done && |p.env.output| == 2
      && "game_scores.team_a = 5" in p.env.output && "game_scores.team_b = 3" in p.env.output
  {
    StructRun(STRUCT_TEST, order);
    ScoresPrinted(order);
  }

  // ---------------------------------------------------------------------------
  // test_loop

  const LOOP_TEST: seq<string> :=
    ["var", "a", "15", "var", "a_add", "-1", "loop", "a", ">", "10", "add", "a", "a_add", "end", "end", "print", "a"]

  predicate IsLoopTest(t: seq<string>) {
    && |t| == 17 && t[0] == "var" && t[1] == "a" && t[2] == "15" && t[3] == "var" && t[4] == "a_add"
    && t[5] == "-1" && t[6] == "loop" && t[7] == "a" && t[8] == ">" && t[9] == "10" && t[10] == "add"
    && t[11] == "a" && t[12] == "a_add" && t[13] == "end" && t[14] == "end" && t[15] == "print" && t[16] == "a"
  }

  const COUNTDOWN: Condition := Condition("a", GreaterThan, 10)

  // The environment before the loop, and while it counts down.
  function Loop1(e: Env): Env { e.(variables := e.variables["a" := 15]) }
  function Loop2(e: Env): Env { Loop1(e).(variables := Loop1(e).variables["a_add" := -1]) }
  function Counting(e: Env, v: int): Env { Loop2(e).(variables := Loop2(e).variables["a" := v]) }
  function Loop9(e: Env): Env { Counting(e, 9).(output := e.output + ["9"]) }

  /** A loop over `a > 10` that reaches `a == 10` stops there, with its cursor where it was. */
  lemma CountdownDone(t: seq<string>, e: Env, fuel: nat)
    requires 10 <= |t|
    ensures LoopRun(t, 10, Counting(e, 10), fuel, COUNTDOWN) == Progress(Counting(e, 10), 10, fuel, Done)
  {
    assert Counting(e, 10).variables["a"] == 10;
  }

  /** While `a > 10`, a pass that decrements `a` costs one unit of fuel, whatever the words of the body. */
  lemma CountdownStep(t: seq<string>, e: Env, v: int, fuel: nat)
    requires 10 <= |t| && 10 < v && fuel > 0
    requires LoopPass(t, 10, 10, Counting(e, v)) == Exit(Counting(e, v - 1), 10, Done)
    ensures LoopRun(t, 10, Counting(e, v), fuel, COUNTDOWN) == LoopRun(t, 10, Counting(e, v - 1), fuel - 1, COUNTDOWN)
  {
    assert Counting(e, v).variables["a"] == v;
    RunNext(t, 10, Counting(e, v), fuel, COUNTDOWN, Exit(Counting(e, v - 1), 10, Done));
  }

  /** Two decrementing passes in a row. */
  lemma TwoPasses(t: seq<string>, e: Env, v: int, fuel: nat)
    requires 10 <= |t| && 11 < v && fuel >= 2
    requires LoopPass(t, 10, 10, Counting(e, v)) == Exit(Counting(e, v - 1), 10, Done)
    requires LoopPass(t, 10, 10, Counting(e, v - 1)) == Exit(Counting(e, v - 2), 10, Done)
    ensures LoopRun(t, 10, Counting(e, v), fuel, COUNTDOWN) == LoopRun(t, 10, Counting(e, v - 2), fuel - 2, COUNTDOWN)
  {
    CountdownStep(t, e, v, fuel);
    CountdownStep(t, e, v - 1, fuel - 1);
  }

  /** From `a == 15`, five decrementing passes stop the loop at `a == 10`. */
  lemma FivePasses(t: seq<string>, e: Env, fuel: nat)
    requires 10 <= |t| && fuel >= 5
    requires LoopPass(t, 10, 10, Counting(e, 15)) == Exit(Counting(e, 14), 10, Done)
    requires LoopPass(t, 10, 10, Counting(e, 14)) == Exit(Counting(e, 13), 10, Done)
    requires LoopPass(t, 10, 10, Counting(e, 13)) == Exit(Counting(e, 12), 10, Done)
    requires LoopPass(t, 10, 10, Counting(e, 12)) == Exit(Counting(e, 11), 10, Done)
    requires LoopPass(t, 10, 10, Counting(e, 11)) == Exit(Counting(e, 10), 10, Done)
    ensures LoopRun(t, 10, Counting(e, 15), fuel, COUNTDOWN) == Progress(Counting(e, 10), 10, fuel - 5, Done)
  {
    TwoPasses(t, e, 15, fuel);
    TwoPasses(t, e, 13, fuel - 2);
    CountdownStep(t, e, 11, fuel - 4);
    CountdownDone(t, e, fuel - 5);
  }

  /** `add a a_add` decrements `a`, at the top level and in a block body alike. */
  lemma CountdownAdd(t: seq<string>, e: Env, v: int, compound: bool)
    requires IsLoopTest(t) && 10 <= v <= 15
    ensures UpdateStmt(t, 11, Counting(e, v), Plus, compound) == Exit(Counting(e, v - 1), 13, Done)
  {
    assert Arith(Plus, v, -1) == Success(v - 1);
    assert Counting(e, v).variables["a" := v - 1] == Counting(e, v - 1).variables;
  }

  /** A pass over `add a a_add end` decrements `a` and leaves the loop's cursor at the body. */
  lemma CountdownPass(t: seq<string>, e: Env, v: int)
    requires IsLoopTest(t) && 10 < v <= 15
    ensures LoopPass(t, 10, 10, Counting(e, v)) == Exit(Counting(e, v - 1), 10, Done)
  {
    CountdownAdd(t, e, v, true);
    BodyAdd(t, 10, Counting(e, v));
    assert StolenOp(t[10]).None?;
    PassNext(t, 10, 10, Counting(e, v), Exit(Counting(e, v - 1), 13, Done));
  }

  lemma Countdown(t: seq<string>, e: Env, fuel: nat)
    requires IsLoopTest(t) && fuel >= 5
    ensures LoopRun(t, 10, Counting(e, 15), fuel, COUNTDOWN) == Progress(Counting(e, 10), 10, fuel - 5, Done)
  {
    CountdownPass(t, e, 15);
    CountdownPass(t, e, 14);
    CountdownPass(t, e, 13);
    CountdownPass(t, e, 12);
    CountdownPass(t, e, 11);
    FivePasses(t, e, fuel);
  }

  lemma LoopCondition(t: seq<string>)
    requires IsLoopTest(t)
    ensures ReadCondition(t, 7) == Success(COUNTDOWN)
  {
    assert "10"[..1] == "1" && DigitsValue("1") == 1 && DigitsValue("10") == 10;
    assert ParseI32("10") == Some(10);
    assert ComparisonOf(">") == Some(GreaterThan);
  }

  /** From `a == 15`, the loop makes five passes and stops at `a == 10`, its cursor at the body. */
  lemma FiveCountdown(t: seq<string>, env: Env, fuel: nat)
    requires IsLoopTest(t) && fuel >= 5
    ensures LoopStmt(t, 7, Counting(env, 15), fuel) == Progress(Counting(env, 10), 10, fuel - 5, Done)
  {
    Countdown(t, env, fuel);
    LoopCondition(t);
  }

  lemma LoopStep0(t: seq<string>, env: Env, fuel: nat, order: KeyOrder)
    requires IsLoopTest(t)
    ensures Step(t, 0, env, fuel, order) == Progress(Loop1(env), 3, fuel, Done)
  {
    assert "15"[..1] == "1" && DigitsValue("1") == 1 && DigitsValue("15") == 15;
    assert ParseI32("15") == Some(15);
    DispatchVar(t, 0, env, fuel, order, Exit(Loop1(env), 3, Done));
  }

  lemma LoopStep1(t: seq<string>, env: Env, fuel: nat, order: KeyOrder)
    requires IsLoopTest(t)
    ensures Step(t, 3, Loop1(env), fuel, order) == Progress(Counting(env, 15), 6, fuel, Done)
  {
    assert "-1"[1..] == "1" && DigitsValue("1") == 1;
    assert ParseI32("-1") == Some(-1);
    assert Loop2(env).variables["a" := 15] == Loop2(env).variables;
    DispatchVar(t, 3, Loop1(env), fuel, order, Exit(Counting(env, 15), 6, Done));
  }

  lemma LoopStep2(t: seq<string>, env: Env, fuel: nat, order: KeyOrder)
    requires IsLoopTest(t) && fuel >= 5
    ensures Step(t, 6, Counting(env, 15), fuel, order) == Progress(Counting(env, 10), 10, fuel - 5, Done)
  {
    FiveCountdown(t, env, fuel);
    DispatchLoop(t, 6, Counting(env, 15), fuel, order, Progress(Counting(env, 10), 10, fuel - 5, Done));
  }

  /** The loop's body runs once more at the top level. */
  lemma LoopStep3(t: seq<string>, env: Env, fuel: nat, order: KeyOrder)
    requires IsLoopTest(t)
    ensures Step(t, 10, Counting(env, 10), fuel, order) == Progress(Counting(env, 9), 13, fuel, Done)
  {
    CountdownAdd(t, env, 10, false);
    DispatchAdd(t, 10, Counting(env, 10), fuel, order, Exit(Counting(env, 9), 13, Done));
  }

  lemma LoopStep4(t: seq<string>, env: Env, fuel: nat, order: KeyOrder)
    requires IsLoopTest(t)
    ensures Step(t, 13, Counting(env, 9), fuel, order) == Progress(Counting(env, 9), 14, fuel, Done)
  {
    DispatchEnd(t, 13, Counting(env, 9), fuel, order);
  }

  lemma LoopStep5(t: seq<string>, env: Env, fuel: nat, order: KeyOrder)
    requires IsLoopTest(t)
    ensures Step(t, 14, Counting(env, 9), fuel, order) == Progress(Counting(env, 9), 15, fuel, Done)
  {
    DispatchEnd(t, 14, Counting(env, 9), fuel, order);
  }

  lemma LoopStep6(t: seq<string>, env: Env, fuel: nat, order: KeyOrder)
    requires IsLoopTest(t)
    ensures Step(t, 15, Counting(env, 9), fuel, order) == Progress(Loop9(env), 17, fuel, Done)
  {
    assert IntToString(9) == "9";
    DispatchPrint(t, 15, Counting(env, 9), fuel, order, Exit(Loop9(env), 17, Done));
  }

  /** Any words whose first three statements do what the loop test's do reach the loop's body. */
  lemma LoopHead(t: seq<string>, env: Env, fuel: nat, rest: nat, order: KeyOrder)
    requires |t| == 17
    requires Step(t, 0, env, fuel, order) == Progress(Loop1(env), 3, fuel, Done)
    requires Step(t, 3, Loop1(env), fuel, order) == Progress(Counting(env, 15), 6, fuel, Done)
    requires Step(t, 6, Counting(env, 15), fuel, order) == Progress(Counting(env, 10), 10, rest, Done)
    ensures RunFrom(t, 0, env, fuel, order) == RunFrom(t, 10, Counting(env, 10), rest, order)
  {
    Next(t, 0, env, fuel, order, Progress(Loop1(env), 3, fuel, Done));
    Next(t, 3, Loop1(env), fuel, order, Progress(Counting(env, 15), 6, fuel, Done));
    Next(t, 6, Counting(env, 15), fuel, order, Progress(Counting(env, 10), 10, rest, Done));
  }

  /** Any words whose last four statements do what the loop test's do finish as it does. */
  lemma LoopTail(t: seq<string>, env: Env, rest: nat, order: KeyOrder)
    requires |t| == 17
    requires Step(t, 10, Counting(env, 10), rest, order) == Progress(Counting(env, 9), 13, rest, Done)
    requires Step(t, 13, Counting(env, 9), rest, order) == Progress(Counting(env, 9), 14, rest, Done)
    requires Step(t, 14, Counting(env, 9), rest, order) == Progress(Counting(env, 9), 15, rest, Done)
    requires Step(t, 15, Counting(env, 9), rest, order) == Progress(Loop9(env), 17, rest, Done)
    ensures RunFrom(t, 10, Counting(env, 10), rest, order) == RunFrom(t, 17, Loop9(env), rest, order)
  {
    Next(t, 10, Counting(env, 10), rest, order, Progress(Counting(env, 9), 13, rest, Done));
    Next(t, 13, Counting(env, 9), rest, order, Progress(Counting(env, 9), 14, rest, Done));
    Next(t, 14, Counting(env, 9), rest, order, Progress(Counting(env, 9), 15, rest, Done));
    Next(t, 15, Counting(env, 9), rest, order, Progress(Loop9(env), 17, rest, Done));
  }

  lemma LoopRunAll(t: seq<string>, env: Env, fuel: nat, order: KeyOrder)
    requires IsLoopTest(t) && fuel >= 5
    ensures RunFrom(t, 0, env, fuel, order) == RunFrom(t, 17, Loop9(env), fuel - 5, order)
  {
    var rest := fuel - 5;
    LoopStep0(t, env, fuel, order);
    LoopStep1(t, env, fuel, order);
    LoopStep2(t, env, fuel, order);
    LoopStep3(t, env, rest, order);
    LoopStep4(t, env, rest, order);
    LoopStep5(t, env, rest, order);
    LoopStep6(t, env, rest, order);
    LoopHead(t, env, fuel, rest, order);
    LoopTail(t, env, rest, order);
  }

  /**
   * The loop test prints 9, not 10: the loop stops at 10, and its body then runs once more
   * at the top level. Five passes are needed, and any fuel from five on gives the same output.
   */
  lemma LoopProgram(env: Env, fuel: nat, order: KeyOrder)
    requires fuel >= 5
    ensures var p := RunFrom(LOOP_TEST, 0, env, fuel, order);
      p.outcome == Done && p.env.output == env.output + ["9"] && "a" in p.env.variables && p.env.variables["a"] == 9
  {
    LoopRunAll(LOOP_TEST, env, fuel, order);
  }
}
