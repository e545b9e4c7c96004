/** What the words of a tag stand for, each said without the tables of the parser. */
module ParserLaws {
  import opened Options
  import opened Json
  import opened Bytecodes
  import opened Compiler
  import opened Tokens
  import opened ParserSpec

  /** The builtin functions as a template calls them. */
  predicate Calls(name: string, n: nat, op: Op) {
    match op
    case At => name == "at" && n == 2
    case Default => name == "default" && n == 2
    case DivisibleBy => name == "divisibleBy" && n == 2
    case Even => name == "even" && n == 1
    case First => name == "first" && n == 1
    case Float => name == "float" && n == 1
    case Int => name == "int" && n == 1
    case Last => name == "last" && n == 1
    case Length => name == "length" && n == 1
    case Lower => name == "lower" && n == 1
    case Max => name == "max" && n == 1
    case Min => name == "min" && n == 1
    case Odd => name == "odd" && n == 1
    case Range => name == "range" && n == 1
    case Round => name == "round" && n == 2
    case Sort => name == "sort" && n == 1
    case Upper => name == "upper" && n == 1
    case Exists => name == "exists" && n == 1
    case ExistsInObject => name == "existsIn" && n == 2
    case IsBoolean => name == "isBoolean" && n == 1
    case IsNumber => name == "isNumber" && n == 1
    case IsInteger => name == "isInteger" && n == 1
    case IsFloat => name == "isFloat" && n == 1
    case IsObject => name == "isObject" && n == 1
    case IsArray => name == "isArray" && n == 1
    case IsString => name == "isString" && n == 1
    case _ => false
  }

  /** A call is an operation exactly if it names a builtin with that builtin's number of arguments. */
  lemma BuiltinExact(name: string, n: nat, op: Op)
    requires !op.Nop?
    ensures FindBuiltin(name, n) == op <==> Calls(name, n, op)
    ensures FindBuiltin(name, n).Nop? <==> forall other :: !Calls(name, n, other)
  {
    hide Calls, FindBuiltin;
    if !FindBuiltin(name, n).Nop? { FoundIsCalled(name, n); }
    forall other | Calls(name, n, other) ensures FindBuiltin(name, n) == other && !other.Nop? {
      CalledIsFound(name, n, other);
    }
  }

  lemma CalledIsFound(name: string, n: nat, op: Op)
    requires Calls(name, n, op)
    ensures FindBuiltin(name, n) == op && !op.Nop?
  {
  }

  lemma FoundIsCalled(name: string, n: nat)
    requires !FindBuiltin(name, n).Nop?
    ensures Calls(name, n, FindBuiltin(name, n))
  {
    if |name| < 6 { ShortIsCalled(name, n); }
  }

  lemma ShortIsCalled(name: string, n: nat)
    requires !FindBuiltin(name, n).Nop? && |name| < 6
    ensures Calls(name, n, FindBuiltin(name, n))
  {
  }

  /** A word with no parenthesis behind it pushes a constant if it is one of three, and otherwise looks its name up. */
  lemma WordMeans(pointer: bool, name: string, rest: seq<Token>, code: Code)
    requires !Head(rest).LeftParen?
    ensures var push := if name == "true" then Bytecode(Push, 0, Immediate, Bool(true), "")
                        else if name == "false" then Bytecode(Push, 0, Immediate, Bool(false), "")
                        else if name == "null" then Bytecode(Push, 0, Immediate, Null, "")
                        else Bytecode(Push, 0, if pointer then LookupPointer else LookupDot, Null, name);
            ParseDatum(pointer, Stream([Id(name)] + rest, code)) == Accept(Stream(rest, code + [push]))
  {
    assert Tail([Id(name)] + rest) == rest;
  }

  /** A call's number of arguments is kept in 30 bits, whichever instruction it ends up in. */
  lemma ThirtyBits(code: Code, op: Op, name: string, n: nat)
    ensures var called := AppendFunction(code, op, n); called[|called| - 1].args == n % 0x4000_0000
    ensures var called := AppendCallback(code, name, n); called[|called| - 1].args == n % 0x4000_0000
  {
  }
}
