/**
 * What the statements of the language mean, proved about the functions of `Semantics`
 * (and therefore about the methods of `Neko.Interpreter`, which are proved equal to
 * them).
 */
module Properties {
  import opened Options
  import opened Int32
  import opened Lexemes
  import opened Lexer
  import opened Semantics

  // ---------------------------------------------------------------------------
  // Declarations write exactly one entry of one table

  /** `var N v` succeeds exactly when both words are there and `v` is an i32 literal; it sets `N` to `v`. */
  lemma VarDeclares(t: seq<string>, pos: nat, env: Env)
    requires pos <= |t|
    ensures var x := VarStmt(t, pos, env);
      && (x.outcome.Done? <==> pos + 2 <= |t| && ParseI32(t[pos + 1]).Some?)
      && (x.outcome.Done? ==>
            && x.pos == pos + 2
            && x.env.(variables := env.variables) == env
            && Overwrites(env.variables, x.env.variables, t[pos])
            && ParseI32(t[pos + 1]) == Some(x.env.variables[t[pos]]))
      && (x.outcome.Fail? ==> x.env == env)
  {
  }

  /** `array N n v1 .. vn` writes the entry `N` of the array table and nothing else. */
  lemma ArrayDeclares(t: seq<string>, pos: nat, env: Env)
    requires pos <= |t|
    ensures var x := ArrayStmt(t, pos, env);
      && (x.outcome.Fail? ==> x.env == env)
      && (x.outcome.Done? ==>
            && pos + 2 <= |t| && ParseUsize(t[pos + 1]).Some?
            && x.pos == pos + 2 + ParseUsize(t[pos + 1]).value <= |t|
            && x.env.(arrays := env.arrays) == env
            && Overwrites(env.arrays, x.env.arrays, t[pos]))
  {
    if pos + 2 <= |t| && ParseUsize(t[pos + 1]).Some? {
      var r := ReadInts(t, pos + 2, ParseUsize(t[pos + 1]).value, []);
      if r.Success? {
        OverwritesUpdate(env.arrays, t[pos], r.value);
      }
    }
  }

  /** The array stored has exactly `n` values, the i-th parsed from the i-th word after the size. */
  lemma ArrayContents(t: seq<string>, pos: nat, env: Env)
    requires pos + 2 <= |t| && ParseUsize(t[pos + 1]).Some?
    ensures var x := ArrayStmt(t, pos, env);
      var n := ParseUsize(t[pos + 1]).value;
      x.outcome.Done? ==>
        && t[pos] in x.env.arrays && |x.env.arrays[t[pos]]| == n
        && forall i :: pos + 2 <= i < pos + 2 + n ==> ParseI32(t[i]) == Some(x.env.arrays[t[pos]][i - (pos + 2)])
  {
    ReadIntsParsed(t, pos + 2, ParseUsize(t[pos + 1]).value);
  }

  /** A `FIELD VALUE` pair of fields read from `pos` on can start at `i`: `i` is `pos` or a later pair's start. */
  predicate PairAt(pos: nat, i: int): (b: bool)
    ensures b ==> pos <= i
    decreases i - pos
  {
    i == pos || (i >= pos + 2 && PairAt(pos + 2, i))
  }

  /** Some `FIELD VALUE` pair read from `pos` and ending before `stop` writes `v` to field `k`. */
  ghost predicate Written(t: seq<string>, pos: nat, stop: nat, k: string, v: int) {
    exists i :: PairAt(pos, i) && i + 1 < stop && stop <= |t| && t[i] == k && ParseI32(t[i + 1]) == Some(v)
  }

  /** A pair read from a later pair's start was read from `pos` too. */
  lemma WrittenLater(t: seq<string>, pos: nat, stop: nat, k: string, v: int)
    requires Written(t, pos + 2, stop, k, v)
    ensures Written(t, pos, stop, k, v)
  {
    var i :| PairAt(pos + 2, i) && i + 1 < stop && stop <= |t| && t[i] == k && ParseI32(t[i + 1]) == Some(v);
    assert PairAt(pos, i);
  }

  /**
   * Every field a struct declaration stores was written as a `FIELD VALUE` pair before the
   * terminator, or was already present. Pairs start at even offsets from `pos`.
   */
  lemma {:induction false} StructFieldsOrigin(t: seq<string>, pos: nat, fields: map<string, int>)
    requires pos <= |t|
    ensures var r := StructFields(t, pos, fields);
      r.Success? ==> forall k :: k in r.value.fields ==>
        || (k in fields && r.value.fields[k] == fields[k])
        || Written(t, pos, r.value.pos, k, r.value.fields[k])
    decreases |t| - pos
  {
    var r := StructFields(t, pos, fields);
    if r.Success? && pos < |t| && t[pos] != "endstruct" {
      var fields' := fields[t[pos] := ParseI32(t[pos + 1]).value];
      assert r == StructFields(t, pos + 2, fields');
      StructFieldsOrigin(t, pos + 2, fields');
      var stop, m := r.value.pos, r.value.fields;
      forall k | k in m
        ensures (k in fields && m[k] == fields[k]) || Written(t, pos, stop, k, m[k])
      {
        if k in fields' && m[k] == fields'[k] {
          if k == t[pos] {
            assert PairAt(pos, pos);
          }
        } else {
          WrittenLater(t, pos, stop, k, m[k]);
        }
      }
    }
  }

  /** No later pair read from `pos` and ending before `stop` names the field of the pair at `j`. */
  ghost predicate LastPair(t: seq<string>, pos: nat, stop: nat, j: nat)
    requires j < |t| && stop <= |t|
  {
    forall j' :: j < j' && j' + 1 < stop && PairAt(pos, j') ==> t[j'] != t[j]
  }

  /**
   * Every `FIELD VALUE` pair read from `pos` and ending before `stop` is in `m`: its field is
   * a key other than `endstruct`, holding the pair's value unless a later pair names it again.
   */
  ghost predicate StoresPairs(t: seq<string>, pos: nat, stop: nat, m: map<string, int>) {
    stop <= |t| &&
    forall j :: PairAt(pos, j) && j + 1 < stop ==>
      && t[j] != "endstruct" && t[j] in m
      && (LastPair(t, pos, stop, j) ==> ParseI32(t[j + 1]) == Some(m[t[j]]))
  }

  /** Conversely, every pair before the terminator is stored, the last value written winning. */
  lemma {:induction false} StructFieldsComplete(t: seq<string>, pos: nat, fields: map<string, int>)
    requires pos <= |t|
    ensures var r := StructFields(t, pos, fields);
      r.Success? ==> StoresPairs(t, pos, r.value.pos, r.value.fields)
    decreases |t| - pos
  {
    var r := StructFields(t, pos, fields);
    if r.Success? && pos < |t| && t[pos] != "endstruct" {
      var v := ParseI32(t[pos + 1]).value;
      var fields' := fields[t[pos] := v];
      assert r == StructFields(t, pos + 2, fields');
      StructFieldsComplete(t, pos + 2, fields');
      StructFieldsOrigin(t, pos + 2, fields');
      var stop, m := r.value.pos, r.value.fields;
      forall j | PairAt(pos, j) && j + 1 < stop
        ensures && t[j] != "endstruct" && t[j] in m
                && (LastPair(t, pos, stop, j) ==> ParseI32(t[j + 1]) == Some(m[t[j]]))
      {
        if j != pos {
          assert PairAt(pos + 2, j);
          if LastPair(t, pos, stop, j) {
            assert LastPair(t, pos + 2, stop, j);
          }
        }
      }
    }
  }

  /** `struct N f1 v1 .. endstruct` writes only `structs[N]`, and each stored field comes from the text. */
  lemma StructDeclares(t: seq<string>, pos: nat, env: Env)
    requires pos <= |t|
    ensures var x := StructStmt(t, pos, env);
      && (x.outcome.Fail? ==> x.env == env)
      && (x.outcome.Done? ==>
            && pos < x.pos
            && x.env.(structs := env.structs) == env
            && Overwrites(env.structs, x.env.structs, t[pos])
            && var fields := x.env.structs[t[pos]];
            forall k :: k in fields ==> Written(t, pos + 1, x.pos, k, fields[k]))
  {
    if pos < |t| {
      StructFieldsOrigin(t, pos + 1, map[]);
    }
  }

  /** And every pair of the declaration is stored in `structs[N]`, the last value written for each field winning. */
  lemma StructStoresEveryPair(t: seq<string>, pos: nat, env: Env)
    requires pos <= |t|
    ensures var x := StructStmt(t, pos, env);
      x.outcome.Done? ==> StoresPairs(t, pos + 1, x.pos, x.env.structs[t[pos]])
  {
    if pos < |t| {
      StructFieldsComplete(t, pos + 1, map[]);
    }
  }

  /**
   * `string N w1 .. wk endstring` stores text whose words are exactly `w1 .. wk`, the words up
   * to the terminator; it is empty exactly when `k = 0`. Nothing else changes.
   */
  lemma StringDeclares(t: seq<string>, pos: nat, env: Env)
    requires pos < |t| && AllWords(t)
    ensures var x := StringStmt(t, pos, env);
      var w := StringWords(t, pos + 1, []).words;
      && x.outcome.Done?
      && x.env.(strings := env.strings) == env
      && Overwrites(env.strings, x.env.strings, t[pos])
      && w == t[pos + 1..pos + 1 + |w|] && "endstring" !in w
      && Tokenize(x.env.strings[t[pos]]) == w
      && (x.env.strings[t[pos]] == "" <==> w == [])
  {
    StringWordsSpan(t, pos + 1, []);
    var ws := StringWords(t, pos + 1, []);
    var w := ws.words;
    var text := Join(w);
    assert StringStmt(t, pos, env) == Exit(env.(strings := env.strings[t[pos] := text]), ws.pos, Done);
    OverwritesUpdate(env.strings, t[pos], text);
    assert w == t[pos + 1..pos + 1 + |w|] by {
      assert [] + t[pos + 1..pos + 1 + |w|] == t[pos + 1..pos + 1 + |w|];
    }
    WordsOfSlice(t, pos + 1, pos + 1 + |w|);
    TokenizeJoin(w);
    assert Tokenize("") == [];
  }

  lemma WordsOfSlice(t: seq<string>, i: nat, j: nat)
    requires i <= j <= |t| && AllWords(t)
    ensures AllWords(t[i..j])
  {
    forall k | 0 <= k < j - i ensures IsWord(t[i..j][k]) {
      assert t[i..j][k] == t[i + k];
    }
  }

  // ---------------------------------------------------------------------------
  // Printing

  /** A list that names every element of a set once is as long as the set is large. */
  lemma {:induction false} EnumerationSize(keys: seq<string>, domain: set<string>)
    requires Enumerates(keys, domain)
    ensures |keys| == |domain|
    decreases |keys|
  {
    if keys == [] {
      assert forall k :: k !in domain;
      assert domain == {};
    } else {
      var k := keys[0];
      var rest := keys[1..];
      forall x ensures x in rest <==> x in domain - {k} {
        if x in rest {
          var j :| 0 <= j < |rest| && rest[j] == x;
          assert keys[j + 1] == x;
        }
        if x in domain - {k} {
          var j :| 0 <= j < |keys| && keys[j] == x;
          assert j != 0;
          assert rest[j - 1] == x;
        }
      }
      assert forall i, j :: 0 <= i < j < |rest| ==> rest[i] != rest[j] by {
        forall i, j | 0 <= i < j < |rest| ensures rest[i] != rest[j] {
          assert rest[i] == keys[i + 1] && rest[j] == keys[j + 1];
        }
      }
      EnumerationSize(rest, domain - {k});
    }
  }

  /** A struct prints one line `N.f = v` per field, each field once, whatever the iteration order. */
  lemma StructLines(name: string, fields: map<string, int>, order: KeyOrder)
    ensures var lines := FieldLines(name, fields, order(fields));
      && |lines| == |fields|
      && forall line :: line in lines <==> exists k :: k in fields && line == FieldLine(name, k, fields[k])
  {
    var keys := order(fields);
    assert Enumerates(keys, fields.Keys);
    EnumerationSize(keys, fields.Keys);
    var lines := FieldLines(name, fields, keys);
    forall line ensures line in lines <==> exists k :: k in fields && line == FieldLine(name, k, fields[k]) {
      if line in lines {
        var i :| 0 <= i < |lines| && lines[i] == line;
        assert keys[i] in fields && line == FieldLine(name, keys[i], fields[keys[i]]);
      }
      if exists k :: k in fields && line == FieldLine(name, k, fields[k]) {
        var k :| k in fields && line == FieldLine(name, k, fields[k]);
        assert k in keys;
        var i :| 0 <= i < |keys| && keys[i] == k;
        assert lines[i] == line;
      }
    }
  }

  /**
   * `print N` answers from the first table that holds `N`, probing integers, arrays, structs
   * and strings in that order, and fails when none does.
   */
  lemma PrintProbe(env: Env, name: string, order: KeyOrder)
    ensures var r := PrintLines(env, name, order);
      && (r.Failure? <==> name !in env.variables && name !in env.arrays && name !in env.structs && name !in env.strings)
      && (r.Failure? ==> r.error == UndefinedName(name))
      && (name in env.variables ==> r == Success([IntToString(env.variables[name])]))
      && (name !in env.variables && name in env.arrays ==>
            var a := env.arrays[name];
            r.Success? && |r.value| == |a|
            && forall i :: 0 <= i < |a| ==> r.value[i] == name + "[" + NatToString(i) + "] = " + IntToString(a[i]))
      && (name !in env.variables && name !in env.arrays && name in env.structs ==>
            var fields := env.structs[name];
            r.Success? && |r.value| == |fields|
            && forall line :: line in r.value <==> exists k :: k in fields && line == FieldLine(name, k, fields[k]))
      && (name !in env.variables && name !in env.arrays && name !in env.structs && name in env.strings ==>
            r == Success([env.strings[name]]))
  {
    if name !in env.variables && name !in env.arrays && name in env.structs {
      StructLines(name, env.structs[name], order);
    }
  }

  /**
   * Top-level `print N` only reads the tables: it succeeds exactly when `N` is there and some
   * table holds it, appends the lines `PrintLines` gives and moves past `N`; a failure
   * changes nothing.
   */
  lemma PrintMeaning(t: seq<string>, pos: nat, env: Env, order: KeyOrder)
    requires pos <= |t|
    ensures var x := PrintStmt(t, pos, env, order);
      && (x.outcome.Done? <==> pos < |t| && PrintLines(env, t[pos], order).Success?)
      && (x.outcome.Done? ==>
            x.pos == pos + 1 && x.env == env.(output := env.output + PrintLines(env, t[pos], order).value))
      && (x.outcome.Fail? ==> x.env == env && x.pos == pos)
  {
  }

  /**
   * `print N` in a block body consults only the integer table: it succeeds exactly when `N`
   * is a declared integer, and then appends that one value's line and moves past `N`.
   */
  lemma PrintIntMeaning(t: seq<string>, pos: nat, env: Env)
    requires pos <= |t|
    ensures var x := PrintInt(t, pos, env);
      && (x.outcome.Done? <==> pos < |t| && t[pos] in env.variables)
      && (x.outcome.Done? ==>
            x.pos == pos + 1 && x.env == env.(output := env.output + [IntToString(env.variables[t[pos]])]))
      && (x.outcome.Fail? ==> x.env == env && x.pos == pos)
  {
  }

  /** A declared string prints back as its own words joined by single spaces. */
  lemma StringPrintsBack(t: seq<string>, pos: nat, env: Env, order: KeyOrder)
    requires pos < |t| && AllWords(t)
    requires t[pos] !in env.variables && t[pos] !in env.arrays && t[pos] !in env.structs
    ensures var x := StringStmt(t, pos, env);
      var r := PrintLines(x.env, t[pos], order);
      r.Success? && |r.value| == 1 && Tokenize(r.value[0]) == StringWords(t, pos + 1, []).words
  {
    StringDeclares(t, pos, env);
  }

  // ---------------------------------------------------------------------------
  // Arithmetic

  /**
   * `add`/`sub`/`mul`/`div a b` succeed exactly when both names are declared, the divisor of
   * `div` is not zero and the exact result fits in an i32. Then `a` holds the result and every
   * other entry, `b` included, is unchanged.
   */
  lemma UpdateMeaning(vars: map<string, int>, n1: string, n2: string, op: ArithOp, compound: bool)
    ensures var r := Update(vars, n1, n2, op, compound);
      && (r.Success? <==>
            n1 in vars && n2 in vars && (op == Quotient ==> vars[n2] != 0) && InRange(Exact(op, vars[n1], vars[n2])))
      && (r.Success? ==>
            && r.value.Keys == vars.Keys
            && r.value[n1] == Exact(op, vars[n1], vars[n2])
            && (forall k :: k in vars && k != n1 ==> r.value[k] == vars[k]))
      && (r.Failure? && (n1 !in vars || n2 !in vars) ==>
            r.error.UndefinedName? && r.error.name in {n1, n2} && r.error.name !in vars)
      && (r.Failure? && n1 in vars && n2 in vars ==>
            r.error == if op == Quotient && vars[n2] == 0 then DivisionByZero else Overflow)
  {
  }

  /** `div` rounds toward zero: the remainder is smaller than the divisor and has the dividend's sign. */
  lemma DivisionTruncates(vars: map<string, int>, n1: string, n2: string, compound: bool)
    ensures var r := Update(vars, n1, n2, Quotient, compound);
      r.Success? ==> IsTruncatedQuotient(vars[n1], vars[n2], r.value[n1])
  {
    var r := Update(vars, n1, n2, Quotient, compound);
    if r.Success? {
      QuotIsTruncated(vars[n1], vars[n2]);
    }
  }

  /** `i32::MIN / -1` and `i32::MIN.abs()` overflow; a zero divisor is its own error. */
  lemma ArithmeticEdges(a: int)
    ensures Arith(Quotient, MIN, -1) == Failure(Overflow)
    ensures Arith(Quotient, a, 0) == Failure(DivisionByZero)
    ensures !InRange(Int32.Abs(MIN))
  {
    assert Quot(MIN, -1) == MAX + 1;
  }

  /** `abs N` replaces `N` by its magnitude, failing only on `i32::MIN`. */
  lemma AbsMeaning(t: seq<string>, pos: nat, env: Env)
    requires pos < |t| && t[pos] in env.variables && InRange(env.variables[t[pos]])
    ensures var x := AbsStmt(t, pos, env);
      var a := env.variables[t[pos]];
      && (x.outcome.Fail? <==> a == MIN)
      && (x.outcome.Done? ==> x.env.variables == env.variables[t[pos] := if a < 0 then -a else a])
  {
  }

  /** `pow a b` raises `a` to `b as u32`: a negative exponent wraps to a huge one. */
  lemma PowMeaning(t: seq<string>, pos: nat, env: Env)
    requires pos + 2 <= |t| && t[pos] in env.variables && t[pos + 1] in env.variables
    requires InRange(env.variables[t[pos + 1]])
    ensures var x := PowStmt(t, pos, env);
      var a, b := env.variables[t[pos]], env.variables[t[pos + 1]];
      var e := if b < 0 then b + 0x1_0000_0000 else b;
      && (x.outcome.Done? <==> InRange(Power(a, e)))
      && (x.outcome.Done? ==> x.env.variables == env.variables[t[pos] := Power(a, e)])
  {
  }

  // ---------------------------------------------------------------------------
  // `if`

  /** A false condition with no `else` before the next `end`: nothing runs, and the `end` is consumed. */
  lemma {:induction false} SkipWithoutElse(t: seq<string>, pos: nat, env: Env, e: nat)
    requires pos <= e < |t| && t[e] == "end"
    requires forall j :: pos <= j < e ==> t[j] != "end" && t[j] != "else"
    ensures SkipToElse(t, pos, env) == Exit(env, e + 1, Done)
    decreases e - pos
  {
    if pos < e {
      SkipWithoutElse(t, pos + 1, env, e);
    }
  }

  /** A false condition runs exactly the else branch: the words from the `else` onwards. */
  lemma {:induction false} SkipRunsElse(t: seq<string>, pos: nat, env: Env, e: nat)
    requires pos <= e < |t| && t[e] == "else"
    requires forall j :: pos <= j < e ==> t[j] != "end" && t[j] != "else"
    ensures SkipToElse(t, pos, env) == Branch(t, e + 1, env, false)
    decreases e - pos
  {
    if pos < e {
      SkipRunsElse(t, pos + 1, env, e);
    }
  }

  /** A branch made only of words that are not statements changes nothing and ends after its terminator. */
  lemma {:induction false} InertBranch(t: seq<string>, pos: nat, env: Env, stopAtElse: bool, e: nat)
    requires pos <= e < |t| && (t[e] == "end" || (stopAtElse && t[e] == "else"))
    requires forall j :: pos <= j < e ==> LexemeOf(t[j]).None?
    ensures Branch(t, pos, env, stopAtElse) == Exit(env, e + 1, Done)
    decreases e - pos
  {
    if pos < e {
      assert t[pos] != "end" && t[pos] != "else" by {
        assert LexemeOf(t[pos]).None?;
      }
      InertBranch(t, pos + 1, env, stopAtElse, e);
    }
  }

  /** `if` chooses by the comparison of the variable's current value with the literal. */
  lemma IfChooses(t: seq<string>, pos: nat, env: Env)
    requires pos + 3 <= |t| && t[pos] in env.variables
    requires ComparisonOf(t[pos + 1]).Some? && ParseI32(t[pos + 2]).Some?
    ensures var holds := Holds(ComparisonOf(t[pos + 1]).value, env.variables[t[pos]], ParseI32(t[pos + 2]).value);
      IfStmt(t, pos, env) == if holds then Branch(t, pos + 3, env, true) else SkipToElse(t, pos + 3, env)
  {
  }

  /** An operator outside the six is an error, and so is an undeclared variable. */
  lemma IfRejects(t: seq<string>, pos: nat, env: Env)
    requires pos + 2 <= |t|
    ensures ComparisonOf(t[pos + 1]).None? ==> IfStmt(t, pos, env) == Exit(env, pos, Fail(InvalidComparison(t[pos + 1])))
    ensures ReadCondition(t, pos).Success? && t[pos] !in env.variables ==>
      IfStmt(t, pos, env) == Exit(env, pos, Fail(UndefinedName(t[pos])))
  {
  }

  // ---------------------------------------------------------------------------
  // `loop`

  /** A loop that finishes leaves its condition false. */
  lemma LoopExitsOnFalse(t: seq<string>, pos: nat, env: Env, fuel: nat)
    requires pos <= |t|
    ensures var p := LoopStmt(t, pos, env, fuel);
      p.outcome.Done? ==>
        && ReadCondition(t, pos).Success?
        && var c := ReadCondition(t, pos).value;
        c.name in p.env.variables && !Holds(c.cmp, p.env.variables[c.name], c.bound)
  {
  }

  /**
   * With no `sub`/`mul`/`div` anywhere from `inner` to the end of the input, a pass leaves the
   * loop's cursor where it was.
   */
  lemma {:induction false} PassKeepsCursor(t: seq<string>, main: nat, inner: nat, env: Env)
    requires main <= |t| && inner <= |t|
    requires forall j :: inner <= j < |t| ==> StolenOp(t[j]).None?
    ensures LoopPass(t, main, inner, env).pos == main
    decreases |t| - inner
  {
    if inner < |t| && t[inner] != "end" {
      var x := BodyStmt(t, inner, env, false);
      if x.outcome.Done? {
        PassKeepsCursor(t, main, x.pos, x.env);
      }
    }
  }

  /** The same for a whole run of the loop, under the same hypothesis about the words ahead. */
  lemma {:induction false} RunKeepsCursor(t: seq<string>, main: nat, env: Env, fuel: nat, c: Condition)
    requires main <= |t|
    requires forall j :: main <= j < |t| ==> StolenOp(t[j]).None?
    ensures LoopRun(t, main, env, fuel, c).pos == main
    decreases fuel
  {
    if c.name in env.variables && Holds(c.cmp, env.variables[c.name], c.bound) && fuel > 0 {
      PassKeepsCursor(t, main, main, env);
      var x := LoopPass(t, main, main, env);
      if x.outcome.Done? {
        RunKeepsCursor(t, main, x.env, fuel - 1, c);
      }
    }
  }

  /**
   * After a loop with no `sub`/`mul`/`div` anywhere after its condition (in its body or in the
   * rest of the program), the cursor is still at the start of the body, so the top level runs
   * the body once more. A loop followed by such a word elsewhere is not covered.
   */
  lemma LoopLeavesCursorAtBody(t: seq<string>, pos: nat, env: Env, fuel: nat)
    requires pos <= |t|
    requires forall j :: pos <= j < |t| ==> StolenOp(t[j]).None?
    ensures var p := LoopStmt(t, pos, env, fuel);
      p.outcome.Done? ==> p.pos == pos + 3
  {
    var c := ReadCondition(t, pos);
    if c.Success? {
      RunKeepsCursor(t, pos + 3, env, fuel, c.value);
    }
  }

  // ---------------------------------------------------------------------------
  // `function` and `call`

  /**
   * A declaration records as its code exactly the words from the cursor up to the first
   * `with` or `end` (or to the end of the input).
   */
  lemma {:induction false} CodeRecorded(t: seq<string>, pos: nat, env: Env, name: string, code: seq<string>)
    requires pos <= |t|
    ensures var x := CollectCode(t, pos, env, name, code);
      x.outcome.Done? ==>
        && var f := x.env.functions[name];
        && |code| <= |f.code| && pos + |f.code| - |code| <= |t|
        && f.code == code + t[pos..pos + |f.code| - |code|]
        && var n := pos + |f.code| - |code|;
        n == |t| || t[n] == "with" || t[n] == "end"
    decreases |t| - pos
  {
    if pos == |t| || t[pos] == "end" || t[pos] == "with" {
      CodeEndsHere(t, pos, env, name, code);
      assert t[pos..pos] == [];
    } else {
      var more := code + [t[pos]];
      CodeRecorded(t, pos + 1, env, name, more);
      var x := CollectCode(t, pos + 1, env, name, more);
      assert CollectCode(t, pos, env, name, code) == x;
      if x.outcome.Done? {
        var f := x.env.functions[name];
        var n := pos + |f.code| - |code|;
        assert f.code == more + t[pos + 1..n];
        assert t[pos..n] == [t[pos]] + t[pos + 1..n];
      }
    }
  }

  /** At `with`, `end` or the end of the input, the code collected so far is what is recorded. */
  lemma CodeEndsHere(t: seq<string>, pos: nat, env: Env, name: string, code: seq<string>)
    requires pos == |t| || (pos < |t| && (t[pos] == "end" || t[pos] == "with"))
    ensures var x := CollectCode(t, pos, env, name, code);
      x.outcome.Done? ==> x.env.functions[name].code == code
  {
    if pos < |t| && t[pos] == "with" {
      var d := WithBody(t, pos + 1, env, []);
      assert d.outcome.Done? ==> CollectCode(t, pos, env, name, code) == Exit(Register(d.env, name, FunctionDef(d.parameters, code)), d.pos, Done);
    }
  }

  /** The recorded code stops before the first `with` or `end`. */
  lemma {:induction false} CodeStopsAtBody(t: seq<string>, pos: nat, env: Env, name: string, code: seq<string>)
    requires pos <= |t|
    ensures var x := CollectCode(t, pos, env, name, code);
      x.outcome.Done? ==>
        forall j :: |code| <= j < |x.env.functions[name].code| ==>
          x.env.functions[name].code[j] != "end" && x.env.functions[name].code[j] != "with"
    decreases |t| - pos
  {
    if pos < |t| && t[pos] != "end" && t[pos] != "with" {
      CodeStopsAtBody(t, pos + 1, env, name, code + [t[pos]]);
      var x := CollectCode(t, pos + 1, env, name, code + [t[pos]]);
      if x.outcome.Done? {
        CodeRecorded(t, pos + 1, env, name, code + [t[pos]]);
      }
    }
  }

  /** How many words a statement of a declaration's body takes, its keyword included. */
  function Width(w: string): nat {
    match LexemeOf(w)
    case Some(Var) => 3
    case Some(Add) => 3
    case Some(Print) => 2
    case _ => 1
  }

  /**
   * The first word of each statement of a declaration's body read from `pos`, in order, up
   * to `end`: the body's syntax alone, without running it.
   */
  function BodyKeywords(t: seq<string>, pos: nat): (ws: seq<string>)
    requires pos <= |t|
    ensures |ws| <= |t| - pos
    ensures forall i :: 0 <= i < |ws| ==> ws[i] != "end"
    decreases |t| - pos
  {
    if pos == |t| || t[pos] == "end" then []
    else
      var next := pos + Width(t[pos]);
      [t[pos]] + (if next <= |t| then BodyKeywords(t, next) else [])
  }

  /**
   * One step of a declaration's body: a statement that fails ends the declaration with its
   * error; one that succeeds takes exactly its width and adds its first word as a parameter.
   */
  lemma WithBodyStep(t: seq<string>, pos: nat, env: Env, parameters: seq<string>)
    requires pos < |t| && t[pos] != "end"
    ensures var x := BodyStmt(t, pos, env, false);
      && (x.outcome.Fail? ==> WithBody(t, pos, env, parameters).outcome == x.outcome)
      && (x.outcome.Done? ==>
            && x.pos == pos + Width(t[pos])
            && WithBody(t, pos, env, parameters) == WithBody(t, x.pos, x.env, parameters + [t[pos]]))
  {
  }

  /** A statement that fits in the words contributes its first word, then the rest follow. */
  lemma BodyKeywordsStep(t: seq<string>, pos: nat, next: nat)
    requires pos < |t| && t[pos] != "end" && next == pos + Width(t[pos]) <= |t|
    ensures BodyKeywords(t, pos) == [t[pos]] + BodyKeywords(t, next)
  {
  }

  /**
   * The parameters a declaration records (interpreter.rs:144) are the first words of its
   * body's statements, one per statement and in order, whatever the tables hold.
   */
  lemma {:induction false} WithBodyParameters(t: seq<string>, pos: nat, env: Env, parameters: seq<string>)
    requires pos <= |t|
    ensures var d := WithBody(t, pos, env, parameters);
      d.outcome.Done? ==> d.parameters == parameters + BodyKeywords(t, pos)
    decreases |t| - pos
  {
    if pos < |t| && t[pos] != "end" {
      WithBodyStep(t, pos, env, parameters);
      var x := BodyStmt(t, pos, env, false);
      if x.outcome.Done? {
        var ps := parameters + [t[pos]];
        WithBodyParameters(t, x.pos, x.env, ps);
        BodyKeywordsStep(t, pos, x.pos);
      }
    }
  }

  /** Each parameter a declaration adds is a word of its body, between `with` and `end`. */
  lemma {:induction false} WithBodyParametersInBody(t: seq<string>, pos: nat, env: Env, parameters: seq<string>)
    requires pos <= |t|
    ensures var d := WithBody(t, pos, env, parameters);
      d.outcome.Done? ==> pos <= d.pos <= |t| && forall w :: w in BodyKeywords(t, pos) ==> w in t[pos..d.pos]
    decreases |t| - pos
  {
    if pos < |t| && t[pos] != "end" {
      WithBodyStep(t, pos, env, parameters);
      var x := BodyStmt(t, pos, env, false);
      if x.outcome.Done? {
        WithBodyParametersInBody(t, x.pos, x.env, parameters + [t[pos]]);
        var d := WithBody(t, x.pos, x.env, parameters + [t[pos]]);
        if d.outcome.Done? {
          assert t[pos..d.pos] == [t[pos]] + t[pos + 1..x.pos] + t[x.pos..d.pos];
        }
      }
    }
  }

  /** The statements run inside `call` never read the local table: the locals do not matter. */
  lemma {:induction false} LocalsAreInert(code: seq<string>, i: nat, env: Env, locals: map<string, int>, locals': map<string, int>)
    requires i <= |code|
    ensures var f, f' := CallBody(code, i, env, locals), CallBody(code, i, env, locals');
      f.env == f'.env && f.outcome == f'.outcome
    decreases |code| - i
  {
    if i < |code| {
      if LexemeOf(code[i]) == Some(Var) {
        if i + 3 <= |code| && ParseI32(code[i + 2]).Some? {
          var v := ParseI32(code[i + 2]).value;
          LocalsAreInert(code, i + 3, env, locals[code[i + 1] := v], locals'[code[i + 1] := v]);
        }
      } else if LexemeOf(code[i]) == Some(Print) || LexemeOf(code[i]) == Some(Add) {
        var x := BodyStmt(code, i, env, false);
        if x.outcome.Done? {
          LocalsAreInert(code, x.pos, x.env, locals, locals');
        }
      } else {
        LocalsAreInert(code, i + 1, env, locals, locals');
      }
    }
  }

  /** Every word of `ws` is an i32 literal. */
  predicate Literals(ws: seq<string>) {
    forall i :: 0 <= i < |ws| ==> ParseI32(ws[i]).Some?
  }

  /** The number of argument words `call` takes: one per parameter, or the words left if fewer. */
  function ArgCount(t: seq<string>, pos: nat, f: FunctionDef): (k: nat)
    requires pos < |t|
    ensures pos + 1 + k <= |t|
    ensures k == |f.parameters| || pos + 1 + k == |t| < pos + 1 + |f.parameters|
  {
    if |f.parameters| <= |t| - (pos + 1) then |f.parameters| else |t| - (pos + 1)
  }

  /**
   * `call NAME args..` with NAME declared succeeds exactly when each of its argument words is
   * an i32 literal and the function's code runs without error. Then the cursor is just after
   * the arguments, so surplus words are left to the top level, and the tables are those the
   * code leaves, whatever the arguments were. A bad argument changes nothing.
   */
  lemma CallMeaning(t: seq<string>, pos: nat, env: Env)
    requires pos < |t| && t[pos] in env.functions
    ensures var f := env.functions[t[pos]];
      var k, x, c := ArgCount(t, pos, f), CallStmt(t, pos, env), CallBody(f.code, 0, env, map[]);
      && (x.outcome.Done? <==> Literals(t[pos + 1..pos + 1 + k]) && c.outcome.Done?)
      && (x.outcome.Done? ==> x.pos == pos + 1 + k && x.env == c.env)
      && (!Literals(t[pos + 1..pos + 1 + k]) ==> x.env == env && x.pos == pos && x.outcome.Fail?)
  {
    var f := env.functions[t[pos]];
    var k := ArgCount(t, pos, f);
    var args := t[pos + 1..pos + 1 + k];
    var r := BindArguments(f.parameters, args, map[]);
    assert r.Success? <==> Literals(args) by {
      ArgumentsParse(f.parameters, args, map[]);
    }
    CallUnfolds(t, pos, env);
    if r.Success? {
      var c, c' := CallBody(f.code, 0, env, map[]), CallBody(f.code, 0, env, r.value);
      assert c'.env == c.env && c'.outcome == c.outcome by {
        LocalsAreInert(f.code, 0, env, r.value, map[]);
      }
    }
  }

  /** `call` binds its arguments, then runs the code with the bound locals. */
  lemma CallUnfolds(t: seq<string>, pos: nat, env: Env)
    requires pos < |t| && t[pos] in env.functions
    ensures var f := env.functions[t[pos]];
      var k := ArgCount(t, pos, f);
      var r := BindArguments(f.parameters, t[pos + 1..pos + 1 + k], map[]);
      && (r.Failure? ==> CallStmt(t, pos, env) == Exit(env, pos, Fail(r.error)))
      && (r.Success? ==>
            var c := CallBody(f.code, 0, env, r.value);
            CallStmt(t, pos, env) == Exit(c.env, if c.outcome.Done? then pos + 1 + k else pos, c.outcome))
  {
  }

  /** Binding succeeds exactly when every argument word is an i32 literal. */
  lemma {:induction false} ArgumentsParse(parameters: seq<string>, args: seq<string>, locals: map<string, int>)
    requires |args| <= |parameters|
    ensures BindArguments(parameters, args, locals).Success? <==> forall i :: 0 <= i < |args| ==> ParseI32(args[i]).Some?
    ensures var r := BindArguments(parameters, args, locals);
      r.Failure? ==> exists i :: 0 <= i < |args| && r.error == ParseLiteral(args[i])
    decreases |args|
  {
    if args != [] && ParseI32(args[0]).Some? {
      var v := ParseI32(args[0]).value;
      ArgumentsParse(parameters[1..], args[1..], locals[parameters[0] := v]);
      var r := BindArguments(parameters, args, locals);
      if r.Failure? {
        var i :| 0 <= i < |args[1..]| && r.error == ParseLiteral(args[1..][i]);
        assert r.error == ParseLiteral(args[i + 1]);
      }
      if forall i :: 0 <= i < |args| ==> ParseI32(args[i]).Some? {
        forall i | 0 <= i < |args[1..]| ensures ParseI32(args[1..][i]).Some? {
          assert args[1..][i] == args[i + 1];
        }
      }
    }
  }

  /**
   * `call` binds the parameters to the argument words pairwise, as `zip` does. A parameter
   * name may repeat (a body with two `var` statements records `var` twice); then the last
   * argument for that name wins, and each parameter with no later namesake holds the value
   * parsed from its own argument word.
   */
  lemma {:induction false} ArgumentsBound(parameters: seq<string>, args: seq<string>, locals: map<string, int>)
    requires |args| <= |parameters|
    ensures var r := BindArguments(parameters, args, locals);
      r.Success? ==> forall i :: 0 <= i < |args| && (forall j :: i < j < |args| ==> parameters[j] != parameters[i]) ==>
        parameters[i] in r.value && ParseI32(args[i]) == Some(r.value[parameters[i]])
    decreases |args|
  {
    var r := BindArguments(parameters, args, locals);
    if args != [] && r.Success? {
      var v := ParseI32(args[0]).value;
      var locals' := locals[parameters[0] := v];
      ArgumentsBound(parameters[1..], args[1..], locals');
      assert r == BindArguments(parameters[1..], args[1..], locals');
      forall i | 0 <= i < |args| && (forall j :: i < j < |args| ==> parameters[j] != parameters[i])
        ensures parameters[i] in r.value && ParseI32(args[i]) == Some(r.value[parameters[i]])
      {
        if i == 0 {
          forall j | 0 <= j < |args[1..]| ensures parameters[1..][j] != parameters[0] {
            assert parameters[1..][j] == parameters[j + 1];
          }
          RetainsEarlierBinding(parameters[1..], args[1..], locals', parameters[0]);
        } else {
          forall j | i - 1 < j < |args[1..]| ensures parameters[1..][j] != parameters[1..][i - 1] {
            assert parameters[1..][j] == parameters[j + 1];
          }
          assert args[1..][i - 1] == args[i] && parameters[1..][i - 1] == parameters[i];
        }
      }
    }
  }

  /** A name not among the parameters still bound keeps its value. */
  lemma {:induction false} RetainsEarlierBinding(parameters: seq<string>, args: seq<string>, locals: map<string, int>, name: string)
    requires |args| <= |parameters| && name in locals
    requires forall i :: 0 <= i < |args| ==> parameters[i] != name
    ensures var r := BindArguments(parameters, args, locals);
      r.Success? ==> name in r.value && r.value[name] == locals[name]
    decreases |args|
  {
    if args != [] && ParseI32(args[0]).Some? {
      var v := ParseI32(args[0]).value;
      assert parameters[0] != name;
      RetainsEarlierBinding(parameters[1..], args[1..], locals[parameters[0] := v], name);
    }
  }

  /**
   * `call_function` binds pairwise, as `zip` does: each of the first `min(#parameters, #args)`
   * parameters with no later namesake among them holds its own argument (a repeated name
   * holds the last argument given for it).
   */
  lemma ZipBinds(parameters: seq<string>, args: seq<int>, vars: map<string, int>)
    ensures var m := ZipBind(parameters, args, vars);
      forall i :: 0 <= i < |parameters| && i < |args| && (forall j :: i < j < |parameters| && j < |args| ==> parameters[j] != parameters[i]) ==>
        parameters[i] in m && m[parameters[i]] == args[i]
  {
    forall i | 0 <= i < |parameters| && i < |args| && (forall j :: i < j < |parameters| && j < |args| ==> parameters[j] != parameters[i]) {
      ZipBindsAt(parameters, args, vars, i);
    }
  }

  /** `ZipBinds` for one parameter position `i`. */
  lemma {:induction false} ZipBindsAt(parameters: seq<string>, args: seq<int>, vars: map<string, int>, i: nat)
    requires i < |parameters| && i < |args|
    requires forall j :: i < j < |parameters| && j < |args| ==> parameters[j] != parameters[i]
    ensures var m := ZipBind(parameters, args, vars); parameters[i] in m && m[parameters[i]] == args[i]
    decreases i
  {
    var vars' := vars[parameters[0] := args[0]];
    assert ZipBind(parameters, args, vars) == ZipBind(parameters[1..], args[1..], vars');
    if i == 0 {
      forall j | 0 <= j < |parameters[1..]| && j < |args[1..]| ensures parameters[1..][j] != parameters[0] {
        assert parameters[1..][j] == parameters[j + 1];
      }
      ZipKeeps(parameters[1..], args[1..], vars', parameters[0]);
    } else {
      forall j | i - 1 < j < |parameters[1..]| && j < |args[1..]| ensures parameters[1..][j] != parameters[1..][i - 1] {
        assert parameters[1..][j] == parameters[j + 1];
      }
      ZipBindsAt(parameters[1..], args[1..], vars', i - 1);
      assert parameters[1..][i - 1] == parameters[i] && args[1..][i - 1] == args[i];
    }
  }

  /** The variables after `call_function`'s binding are the earlier ones and the first `min(#parameters, #args)` parameters. */
  lemma {:induction false} ZipKeys(parameters: seq<string>, args: seq<int>, vars: map<string, int>)
    ensures var m := ZipBind(parameters, args, vars);
      forall k :: k in m <==> k in vars || exists i :: 0 <= i < |parameters| && i < |args| && parameters[i] == k
    decreases |args|
  {
    if parameters != [] && args != [] {
      var ps, rest := parameters[1..], args[1..];
      var vars' := vars[parameters[0] := args[0]];
      ZipKeys(ps, rest, vars');
      var m := ZipBind(parameters, args, vars);
      assert m == ZipBind(ps, rest, vars');
      forall k ensures k in m <==> k in vars || exists i :: 0 <= i < |parameters| && i < |args| && parameters[i] == k {
        var later := exists i :: 0 <= i < |ps| && i < |rest| && ps[i] == k;
        assert k in m <==> k in vars' || later;
        if later {
          var i :| 0 <= i < |ps| && i < |rest| && ps[i] == k;
          assert parameters[i + 1] == k;
        }
        if k == parameters[0] {
          assert parameters[0] == k;
        }
        if exists i :: 0 <= i < |parameters| && i < |args| && parameters[i] == k {
          var i :| 0 <= i < |parameters| && i < |args| && parameters[i] == k;
          if i > 0 {
            assert ps[i - 1] == k;
          }
        }
      }
    }
  }

  /** A variable that none of the bound parameters names keeps its value. */
  lemma {:induction false} ZipKeeps(parameters: seq<string>, args: seq<int>, vars: map<string, int>, name: string)
    requires name in vars && forall i :: 0 <= i < |parameters| && i < |args| ==> parameters[i] != name
    ensures var m := ZipBind(parameters, args, vars); name in m && m[name] == vars[name]
    decreases |args|
  {
    if parameters != [] && args != [] {
      forall i | 0 <= i < |parameters[1..]| && i < |args[1..]| ensures parameters[1..][i] != name {
        assert parameters[1..][i] == parameters[i + 1];
      }
      ZipKeeps(parameters[1..], args[1..], vars[parameters[0] := args[0]], name);
    }
  }

  // ---------------------------------------------------------------------------
  // The dispatcher

  /** `end` at the top level does nothing; a word that starts no statement stops the run. */
  lemma TopLevelWords(t: seq<string>, pos: nat, env: Env, fuel: nat, order: KeyOrder)
    requires pos < |t|
    ensures t[pos] == "end" ==> Step(t, pos, env, fuel, order) == Progress(env, pos + 1, fuel, Done)
    ensures LexemeOf(t[pos]).None? || t[pos] in {"else", "endstring", "endstruct"} ==>
      Step(t, pos, env, fuel, order) == Progress(env, pos, fuel, Fail(UnknownCommand(t[pos])))
  {
  }

  /**
   * The run from `pos` with `env` and `fuel` reaches the statement boundary `q` with `env'`
   * and `fuel'`: every statement before `q` succeeds.
   */
  ghost predicate Passes(t: seq<string>, pos: nat, env: Env, fuel: nat, order: KeyOrder, q: nat, env': Env, fuel': nat): (b: bool)
    requires pos <= |t|
    ensures b ==> pos <= q <= |t|
    decreases |t| - pos
  {
    || (q == pos && env' == env && fuel' == fuel)
    || (pos < |t| && var s := Step(t, pos, env, fuel, order);
        s.outcome.Done? && Passes(t, s.pos, s.env, s.fuel, order, q, env', fuel'))
  }

  /**
   * Runs compose: once the run has reached a statement boundary, the rest of it is the run
   * from that boundary, with the tables and fuel it has there.
   */
  lemma {:induction false} RunComposes(t: seq<string>, pos: nat, env: Env, fuel: nat, order: KeyOrder, q: nat, env': Env, fuel': nat)
    requires pos <= |t| && Passes(t, pos, env, fuel, order, q, env', fuel')
    ensures RunFrom(t, pos, env, fuel, order) == RunFrom(t, q, env', fuel', order)
    decreases |t| - pos
  {
    if !(q == pos && env' == env && fuel' == fuel) {
      var s := Step(t, pos, env, fuel, order);
      RunComposes(t, s.pos, s.env, s.fuel, order, q, env', fuel');
    }
  }

  /** A run stops at its first failing statement, with the tables as that statement left them. */
  lemma RunStopsAtFailure(t: seq<string>, pos: nat, env: Env, fuel: nat, order: KeyOrder, q: nat, env': Env, fuel': nat)
    requires pos <= |t| && Passes(t, pos, env, fuel, order, q, env', fuel')
    requires q < |t| && Step(t, q, env', fuel', order).outcome.Fail?
    ensures RunFrom(t, pos, env, fuel, order) == Step(t, q, env', fuel', order)
  {
    RunComposes(t, pos, env, fuel, order, q, env', fuel');
  }

  /** A run, from any well-typed interpreter, stores only `i32` values. */
  lemma RunKeepsTypes(source: string, env: Env, fuel: nat, order: KeyOrder)
    requires Typed(env)
    ensures Typed(RunSource(source, env, fuel, order).env)
  {
  }

  /** A fresh interpreter, with all its tables empty, is well typed. */
  lemma FreshIsTyped()
    ensures Typed(EMPTY)
  {
  }

  /** Binding `i32` arguments to parameters over `i32` variables leaves only `i32` variables. */
  lemma {:induction false} ZipBindInRange(parameters: seq<string>, args: seq<int>, vars: map<string, int>)
    requires forall i :: 0 <= i < |args| ==> InRange(args[i])
    requires forall k :: k in vars ==> InRange(vars[k])
    ensures var m := ZipBind(parameters, args, vars); forall k :: k in m ==> InRange(m[k])
    decreases |args|
  {
    if parameters != [] && args != [] {
      forall i | 0 <= i < |args[1..]| ensures InRange(args[1..][i]) {
        assert args[1..][i] == args[i + 1];
      }
      var vars' := vars[parameters[0] := args[0]];
      ZipBindInRange(parameters[1..], args[1..], vars');
      assert ZipBind(parameters, args, vars) == ZipBind(parameters[1..], args[1..], vars');
    }
  }

  /**
   * `call_function` with `i32` arguments starts the callee from well-typed tables, so the
   * callee's run, too, stores only `i32` values.
   */
  lemma HostCallTyped(env: Env, name: string, args: seq<int>, fuel: nat, order: KeyOrder)
    requires name in env.functions
    requires forall i :: 0 <= i < |args| ==> InRange(args[i])
    ensures var start := EMPTY.(variables := ZipBind(env.functions[name].parameters, args, map[]));
      Typed(start) && Typed(RunSource(Join(env.functions[name].code), start, fuel, order).env)
  {
    ZipBindInRange(env.functions[name].parameters, args, map[]);
  }

  /** Lines once written stay written: a run only appends to the output. */
  lemma OutputOnlyGrows(source: string, env: Env, fuel: nat, order: KeyOrder)
    ensures var p := RunSource(source, env, fuel, order);
      |env.output| <= |p.env.output| && p.env.output[..|env.output|] == env.output
  {
  }
}
