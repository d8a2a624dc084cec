/**
 * The two lookup tables of the language: keywords and comparison operators. In the
 * source both panic on a string outside the table; here that is `None`. Each table has
 * an inverse (`Spelling`, `Symbol`), and the lemmas show that lookup and inverse agree
 * both ways, so each table is a bijection between its strings and its variants.
 */
module Lexemes {
  import opened Options

  /** The 25 keywords. `Abs` and `Pow` are spelled `ABS` and `POW` in the source. */
  datatype Lexeme =
    | Var | Print | If | Else | Add | Sub | Mul | Div | End | Loop | Array | String
    | Endstring | Sqrt | Float | Function | Call | Struct | Endstruct
    | AddF | SubF | MulF | DivF | Abs | Pow

  datatype Comparison =
    | Equal | NotEqual | LessThan | LessThanOrEqual | GreaterThan | GreaterThanOrEqual

  /** The source text of each keyword. */
  function Spelling(l: Lexeme): string {
    match l
    case Var => "var"
    case Print => "print"
    case If => "if"
    case Else => "else"
    case Add => "add"
    case Sub => "sub"
    case Mul => "mul"
    case Div => "div"
    case End => "end"
    case Loop => "loop"
    case Array => "array"
    case String => "string"
    case Endstring => "endstring"
    case Sqrt => "sqrt"
    case Float => "float"
    case Function => "function"
    case Call => "call"
    case Struct => "struct"
    case Endstruct => "endstruct"
    case AddF => "add_f"
    case SubF => "sub_f"
    case MulF => "mul_f"
    case DivF => "div_f"
    case Abs => "abs"
    case Pow => "pow"
  }

  /** `Lexeme::from_str`; `None` where the source panics with "Invalid lexeme". */
  function LexemeOf(s: string): (r: Option<Lexeme>)
    ensures r.Some? ==> Spelling(r.value) == s
  {
    match s
    case "var" => Some(Var)
    case "print" => Some(Print)
    case "if" => Some(If)
    case "else" => Some(Else)
    case "add" => Some(Add)
    case "sub" => Some(Sub)
    case "mul" => Some(Mul)
    case "div" => Some(Div)
    case "end" => Some(End)
    case "loop" => Some(Loop)
    case "array" => Some(Array)
    case "string" => Some(String)
    case "endstring" => Some(Endstring)
    case "sqrt" => Some(Sqrt)
    case "float" => Some(Float)
    case "function" => Some(Function)
    case "call" => Some(Call)
    case "struct" => Some(Struct)
    case "endstruct" => Some(Endstruct)
    case "add_f" => Some(AddF)
    case "sub_f" => Some(SubF)
    case "mul_f" => Some(MulF)
    case "div_f" => Some(DivF)
    case "abs" => Some(Abs)
    case "pow" => Some(Pow)
    case _ => None
  }

  /** The source text of each comparison operator. */
  function Symbol(c: Comparison): string {
    match c
    case Equal => "=="
    case NotEqual => "!="
    case LessThan => "<"
    case LessThanOrEqual => "<="
    case GreaterThan => ">"
    case GreaterThanOrEqual => ">="
  }

  /** `Comparison::from_str`; `None` where the source panics with "Invalid comparison operator". */
  function ComparisonOf(s: string): (r: Option<Comparison>)
    ensures r.Some? ==> Symbol(r.value) == s
  {
    match s
    case "==" => Some(Equal)
    case "!=" => Some(NotEqual)
    case "<" => Some(LessThan)
    case "<=" => Some(LessThanOrEqual)
    case ">" => Some(GreaterThan)
    case ">=" => Some(GreaterThanOrEqual)
    case _ => None
  }

  /** Every keyword is recognised as itself: the table has an entry for each variant. */
  lemma LexemeOfSpelling(l: Lexeme)
    ensures LexemeOf(Spelling(l)) == Some(l)
  {
  }

  /** Two strings that map to the same keyword are the same string. */
  lemma LexemeOfInjective(s: string, s': string)
    requires LexemeOf(s).Some? && LexemeOf(s) == LexemeOf(s')
    ensures s == s'
  {
  }

  /** `LexemeOf` rejects exactly the strings that spell no keyword. */
  lemma LexemeOfRejects(s: string)
    ensures LexemeOf(s) == None <==> forall l: Lexeme :: Spelling(l) != s
  {
    if LexemeOf(s) == None {
      forall l: Lexeme ensures Spelling(l) != s {
        LexemeOfSpelling(l);
      }
    }
  }

  lemma ComparisonOfSymbol(c: Comparison)
    ensures ComparisonOf(Symbol(c)) == Some(c)
  {
  }

  /** `ComparisonOf` rejects exactly the strings that spell no operator. */
  lemma ComparisonOfRejects(s: string)
    ensures ComparisonOf(s) == None <==> forall c: Comparison :: Symbol(c) != s
  {
    if ComparisonOf(s) == None {
      forall c: Comparison ensures Symbol(c) != s {
        ComparisonOfSymbol(c);
      }
    }
  }

  /** No string is both a keyword and a comparison operator. */
  lemma KeywordsAreNotOperators(s: string)
    ensures LexemeOf(s).None? || ComparisonOf(s).None?
  {
  }
}
